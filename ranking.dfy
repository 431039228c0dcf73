/** Ordering the standings: `standings.sort(key=points, reverse=True)`.
    Python's sort is stable also in reverse, so entries with equal points
    keep the order they had in the list being sorted. */
module Ranking {

  /** One line of the standings: the entrant's key (driver number or team
      name), the name shown, and the season total. */
  datatype Standing = Standing(key: string, name: string, points: nat)

  /** Points never increase along the list. */
  predicate SortedDesc(s: seq<Standing>)
  {
    forall i, j :: 0 <= i < j < |s| ==> s[i].points >= s[j].points
  }

  /** The entries of s that have exactly v points, in the order of s. */
  function WithPoints(s: seq<Standing>, v: nat): seq<Standing>
    decreases |s|
  {
    if s == [] then []
    else (if s[0].points == v then [s[0]] else []) + WithPoints(s[1..], v)
  }

  lemma {:induction false} WithPointsNone(s: seq<Standing>, v: nat)
    requires forall i :: 0 <= i < |s| ==> s[i].points != v
    ensures WithPoints(s, v) == []
    decreases |s|
  {
    if s != [] {
      WithPointsNone(s[1..], v);
    }
  }

  lemma {:induction false} WithPointsAppend(a: seq<Standing>, b: seq<Standing>, v: nat)
    ensures WithPoints(a + b, v) == WithPoints(a, v) + WithPoints(b, v)
    decreases |a|
  {
    if a == [] {
      assert a + b == b;
    } else {
      assert (a + b)[1..] == a[1..] + b;
      WithPointsAppend(a[1..], b, v);
    }
  }

  /** r is s sorted by points, highest first, keeping the order of s among
      equal points: what a stable descending sort returns. */
  ghost predicate StableDescOf(r: seq<Standing>, s: seq<Standing>)
  {
    && SortedDesc(r)
    && multiset(r) == multiset(s)
    && forall v :: WithPoints(r, v) == WithPoints(s, v)
  }

  lemma WithPointsCons(x: Standing, s: seq<Standing>)
    ensures forall v :: WithPoints([x] + s, v) == (if x.points == v then [x] else []) + WithPoints(s, v)
  {
    assert ([x] + s)[1..] == s;
  }

  lemma {:induction false} WithPointsSubset(s: seq<Standing>, v: nat)
    ensures forall x :: x in WithPoints(s, v) ==> x in s
    decreases |s|
  {
    if s != [] {
      WithPointsSubset(s[1..], v);
    }
  }

  /** Two entries with equal points appear in that value's entries in the
      order they have in the list. */
  lemma WithPointsKeepsOrder(s: seq<Standing>, i: int, j: int)
    requires 0 <= i < j < |s| && s[i].points == s[j].points
    ensures exists a, b :: 0 <= a < b < |WithPoints(s, s[i].points)|
              && WithPoints(s, s[i].points)[a] == s[i] && WithPoints(s, s[i].points)[b] == s[j]
  {
    var v := s[i].points;
    var front, mid, back := s[..i], s[i + 1..j], s[j + 1..];
    assert s == front + [s[i]] + mid + [s[j]] + back;
    WithPointsAppend(front + [s[i]] + mid + [s[j]], back, v);
    WithPointsAppend(front + [s[i]] + mid, [s[j]], v);
    WithPointsAppend(front + [s[i]], mid, v);
    WithPointsAppend(front, [s[i]], v);
    WithPointsCons(s[i], []);
    WithPointsCons(s[j], []);
    assert [s[i]] + [] == [s[i]] && [s[j]] + [] == [s[j]];
    var w := WithPoints(s, v);
    assert w == WithPoints(front, v) + [s[i]] + WithPoints(mid, v) + [s[j]] + WithPoints(back, v);
    var a := |WithPoints(front, v)|;
    var b := a + 1 + |WithPoints(mid, v)|;
    assert w[a] == s[i] && w[b] == s[j];
  }

  /** Entries of one points value come from the list in the list's order. */
  lemma {:induction false} WithPointsFromOrder(s: seq<Standing>, v: nat, a: int, b: int)
    requires 0 <= a < b < |WithPoints(s, v)|
    ensures exists p, q :: 0 <= p < q < |s| && s[p] == WithPoints(s, v)[a] && s[q] == WithPoints(s, v)[b]
    decreases |s|
  {
    var w := WithPoints(s, v);
    var rest := WithPoints(s[1..], v);
    if s[0].points == v {
      assert w == [s[0]] + rest;
      if a == 0 {
        assert w[b] == rest[b - 1];
        WithPointsSubset(s[1..], v);
        assert rest[b - 1] in s[1..];
        var q :| 0 <= q < |s[1..]| && s[1..][q] == rest[b - 1];
        assert s[q + 1] == w[b];
      } else {
        WithPointsFromOrder(s[1..], v, a - 1, b - 1);
        var p, q :| 0 <= p < q < |s[1..]| && s[1..][p] == rest[a - 1] && s[1..][q] == rest[b - 1];
        assert s[p + 1] == w[a] && s[q + 1] == w[b];
      }
    } else {
      assert w == [] + rest;
      WithPointsFromOrder(s[1..], v, a, b);
      var p, q :| 0 <= p < q < |s[1..]| && s[1..][p] == rest[a] && s[1..][q] == rest[b];
      assert s[p + 1] == w[a] && s[q + 1] == w[b];
    }
  }

  /** A stable sort keeps the order of entries with equal points: two such
      entries of the result stand in the same order in the input. */
  lemma StableKeepsTies(r: seq<Standing>, s: seq<Standing>, i: int, j: int)
    requires StableDescOf(r, s)
    requires 0 <= i < j < |r| && r[i].points == r[j].points
    ensures exists p, q :: 0 <= p < q < |s| && s[p] == r[i] && s[q] == r[j]
  {
    WithPointsKeepsOrder(r, i, j);
    var v := r[i].points;
    var a, b :| 0 <= a < b < |WithPoints(r, v)| && WithPoints(r, v)[a] == r[i] && WithPoints(r, v)[b] == r[j];
    assert WithPoints(r, v) == WithPoints(s, v);
    WithPointsFromOrder(s, v, a, b);
  }

  /** Where a stable descending insertion puts x: after every entry with at
      least as many points, before every entry with fewer. */
  function InsertionPoint(s: seq<Standing>, x: Standing): (k: nat)
    requires SortedDesc(s)
    ensures k <= |s|
    ensures forall i :: 0 <= i < k ==> s[i].points >= x.points
    ensures forall i :: k <= i < |s| ==> s[i].points < x.points
    decreases |s|
  {
    if s == [] || s[0].points < x.points then 0
    else 1 + InsertionPoint(s[1..], x)
  }

  lemma SpliceMultiset(s: seq<Standing>, k: nat, x: Standing)
    requires k <= |s|
    ensures multiset(s[..k] + [x] + s[k..]) == multiset(s) + multiset{x}
  {
    assert s == s[..k] + s[k..];
  }

  lemma SpliceSorted(s: seq<Standing>, k: nat, x: Standing)
    requires SortedDesc(s) && k <= |s|
    requires forall i :: 0 <= i < k ==> s[i].points >= x.points
    requires forall i :: k <= i < |s| ==> s[i].points < x.points
    ensures SortedDesc(s[..k] + [x] + s[k..])
  {
  }

  lemma SpliceWithPointsAt(s: seq<Standing>, k: nat, x: Standing, v: nat)
    requires k <= |s|
    requires forall i :: k <= i < |s| ==> s[i].points < x.points
    ensures WithPoints(s[..k] + [x] + s[k..], v) == WithPoints(s, v) + (if x.points == v then [x] else [])
  {
    assert s == s[..k] + s[k..];
    var a, b := WithPoints(s[..k], v), WithPoints(s[k..], v);
    var m := if x.points == v then [x] else [];
    WithPointsAppend(s[..k] + [x], s[k..], v);
    WithPointsAppend(s[..k], [x], v);
    WithPointsAppend(s[..k], s[k..], v);
    assert WithPoints([x], v) == m by {
      WithPointsCons(x, []);
      assert [x] + [] == [x];
    }
    if x.points == v {
      WithPointsNone(s[k..], v);
      assert b == [];
    }
    assert a + m + b == a + b + m;
  }

  lemma SpliceWithPoints(s: seq<Standing>, k: nat, x: Standing)
    requires k <= |s|
    requires forall i :: k <= i < |s| ==> s[i].points < x.points
    ensures forall v :: WithPoints(s[..k] + [x] + s[k..], v) == WithPoints(s, v) + (if x.points == v then [x] else [])
  {
    forall v ensures WithPoints(s[..k] + [x] + s[k..], v) == WithPoints(s, v) + (if x.points == v then [x] else []) {
      SpliceWithPointsAt(s, k, x, v);
    }
  }

  /** Inserts x into a descending list after the entries with at least as
      many points, so that x follows the equal entries already there. */
  function Insert(s: seq<Standing>, x: Standing): (r: seq<Standing>)
    requires SortedDesc(s)
    ensures SortedDesc(r)
    ensures multiset(r) == multiset(s) + multiset{x}
    ensures forall v :: WithPoints(r, v) == WithPoints(s, v) + (if x.points == v then [x] else [])
  {
    var k := InsertionPoint(s, x);
    SpliceMultiset(s, k, x);
    SpliceSorted(s, k, x);
    SpliceWithPoints(s, k, x);
    s[..k] + [x] + s[k..]
  }

  /** The sort of the standings list: entries with more points come first
      and entries with equal points keep their order. */
  method SortByPointsDesc(s: seq<Standing>) returns (r: seq<Standing>)
    ensures StableDescOf(r, s)
  {
    r := [];
    var i := 0;
    while i < |s|
      invariant 0 <= i <= |s|
      invariant SortedDesc(r)
      invariant multiset(r) == multiset(s[..i])
      invariant forall v :: WithPoints(r, v) == WithPoints(s[..i], v)
    {
      forall v ensures WithPoints(s[..i + 1], v) == WithPoints(s[..i], v) + (if s[i].points == v then [s[i]] else []) {
        assert s[..i + 1] == s[..i] + [s[i]];
        WithPointsAppend(s[..i], [s[i]], v);
        assert [s[i]][1..] == [];
      }
      assert s[..i + 1] == s[..i] + [s[i]];
      r := Insert(r, s[i]);
      i := i + 1;
    }
    assert s[..i] == s;
  }

  /** Entries of r with the same points as its first entry start with it. */
  lemma HeadLeadsItsPoints(r: seq<Standing>, v: nat)
    requires r != []
    ensures WithPoints(r, v) == (if r[0].points == v then [r[0]] else []) + WithPoints(r[1..], v)
  {
  }

  lemma TailMultiset(r1: seq<Standing>, r2: seq<Standing>)
    requires r1 != [] && r2 != [] && r1[0] == r2[0]
    requires multiset(r1) == multiset(r2)
    ensures multiset(r1[1..]) == multiset(r2[1..])
  {
    assert r1 == [r1[0]] + r1[1..];
    assert r2 == [r2[0]] + r2[1..];
    assert multiset(r1) == multiset{r1[0]} + multiset(r1[1..]);
    assert multiset(r2) == multiset{r1[0]} + multiset(r2[1..]);
    assert multiset(r1[1..]) == multiset(r1) - multiset{r1[0]};
    assert multiset(r2[1..]) == multiset(r2) - multiset{r1[0]};
  }

  /** A stable descending order is unique: two lists sorted by points, with
      the same entries and the same order among equal points, are equal.
      So any stable sort returns what SortByPointsDesc returns. */
  lemma {:induction false} StableSortUnique(r1: seq<Standing>, r2: seq<Standing>)
    requires SortedDesc(r1) && SortedDesc(r2)
    requires multiset(r1) == multiset(r2)
    requires forall v :: WithPoints(r1, v) == WithPoints(r2, v)
    ensures r1 == r2
    decreases |r1|
  {
    if r1 == [] {
      assert |multiset(r2)| == 0;
    } else {
      assert r1[0] in multiset(r2);
      assert r2 != [];
      assert r2[0] in multiset(r1);
      var a :| 0 <= a < |r2| && r2[a] == r1[0];
      var b :| 0 <= b < |r1| && r1[b] == r2[0];
      assert r1[0].points >= r2[0].points;
      assert r2[0].points >= r1[0].points;
      var m := r1[0].points;
      HeadLeadsItsPoints(r1, m);
      HeadLeadsItsPoints(r2, m);
      assert WithPoints(r1, m)[0] == r1[0];
      assert WithPoints(r2, m)[0] == r2[0];
      forall v ensures WithPoints(r1[1..], v) == WithPoints(r2[1..], v) {
        var head := if m == v then [r1[0]] else [];
        HeadLeadsItsPoints(r1, v);
        HeadLeadsItsPoints(r2, v);
        assert WithPoints(r1[1..], v) == WithPoints(r1, v)[|head|..];
        assert WithPoints(r2[1..], v) == WithPoints(r2, v)[|head|..];
      }
      TailMultiset(r1, r2);
      StableSortUnique(r1[1..], r2[1..]);
      assert r1 == [r1[0]] + r1[1..];
      assert r2 == [r2[0]] + r2[1..];
    }
  }
}
