/** The running totals of a standings handler: its points dictionary and
    its names dictionary. Python dictionaries keep their keys in order of
    first insertion, and the final list is built in that order, so the
    model records that order explicitly. */
module Tallies {
  import opened Wrappers
  import opened Ranking

  /** `order` lists the keys in order of first insertion; `points` and
      `names` are the two dictionaries. */
  datatype Tally = Tally(order: seq<string>, points: map<string, nat>, names: map<string, string>)

  const Empty: Tally := Tally([], map[], map[])

  predicate Distinct(s: seq<string>)
  {
    forall i, j :: 0 <= i < j < |s| ==> s[i] != s[j]
  }

  /** Both dictionaries have the keys of `order`, each once, and every
      stored total is positive (points are only ever added when positive). */
  ghost predicate Valid(t: Tally)
  {
    && Distinct(t.order)
    && (forall k :: k in t.points <==> k in t.order)
    && t.names.Keys == t.points.Keys
    && (forall k :: k in t.points ==> t.points[k] > 0)
  }

  /** `points.get(k, 0)`. */
  function PointsOf(t: Tally, k: string): nat
  {
    if k in t.points then t.points[k] else 0
  }

  /** The stored name of k, if any. */
  function NameFor(t: Tally, k: string): Option<string>
  {
    if k in t.names then Some(t.names[k]) else None
  }

  /** `points[key] = points.get(key, 0) + pts; names[key] = name`: a key
      seen for the first time goes to the end of the order, a known key
      keeps its place. */
  function Add(t: Tally, key: string, name: string, pts: nat): (u: Tally)
    requires Valid(t) && pts > 0
    ensures Valid(u)
    ensures forall k :: PointsOf(u, k) == PointsOf(t, k) + (if k == key then pts else 0)
    ensures forall k :: NameFor(u, k) == if k == key then Some(name) else NameFor(t, k)
    ensures u.order == if key in t.points then t.order else t.order + [key]
  {
    if key in t.points then
      Tally(t.order, t.points[key := t.points[key] + pts], t.names[key := name])
    else
      Tally(t.order + [key], t.points[key := pts], t.names[key := name])
  }

  /** The standings list before sorting: one entry per key, in key order
      (the list comprehension over `points.items()`). */
  function Listing(t: Tally): (s: seq<Standing>)
    requires Valid(t)
    ensures |s| == |t.order|
    ensures forall i :: 0 <= i < |s| ==>
              && s[i].key == t.order[i]
              && Some(s[i].name) == NameFor(t, t.order[i])
              && s[i].points == PointsOf(t, t.order[i])
              && s[i].points > 0
  {
    seq(|t.order|, i requires 0 <= i < |t.order| =>
      Standing(t.order[i], t.names[t.order[i]], t.points[t.order[i]]))
  }

  /** `order` followed by each key of `keys` that is not there yet, in the
      order the keys first occur. */
  function Extend(order: seq<string>, keys: seq<string>): seq<string>
    decreases |keys|
  {
    if keys == [] then order
    else Extend(if keys[0] in order then order else order + [keys[0]], keys[1..])
  }

  lemma {:induction false} ExtendAppend(order: seq<string>, a: seq<string>, b: seq<string>)
    ensures Extend(order, a + b) == Extend(Extend(order, a), b)
    decreases |a|
  {
    if a == [] {
      assert a + b == b;
    } else {
      assert (a + b)[0] == a[0] && (a + b)[1..] == a[1..] + b;
      ExtendAppend(if a[0] in order then order else order + [a[0]], a[1..], b);
    }
  }

  /** Extending a list of distinct keys keeps it as a prefix, adds exactly
      the new keys, each once, and places a key after another only when
      the other is already there, or occurs among the keys, before the
      first key equal to it. */
  lemma {:induction false} ExtendFacts(order: seq<string>, keys: seq<string>)
    requires Distinct(order)
    ensures Distinct(Extend(order, keys))
    ensures |order| <= |Extend(order, keys)| && Extend(order, keys)[..|order|] == order
    ensures forall k :: k in Extend(order, keys) <==> k in order || k in keys
    ensures forall i, j, p ::
              (0 <= i < j < |Extend(order, keys)| && |order| <= j && 0 <= p < |keys| && keys[p] == Extend(order, keys)[j])
              ==> Extend(order, keys)[i] in order + keys[..p]
    decreases |keys|
  {
    if keys != [] {
      var x := keys[0];
      var next := if x in order then order else order + [x];
      assert Distinct(next);
      ExtendFacts(next, keys[1..]);
      var r := Extend(order, keys);
      assert r == Extend(next, keys[1..]);
      assert r[..|order|] == next[..|order|] == order;
      forall k ensures k in r <==> k in order || k in keys {
        assert keys == [x] + keys[1..];
      }
      forall i, j, p | 0 <= i < j < |r| && |order| <= j && 0 <= p < |keys| && keys[p] == r[j]
        ensures r[i] in order + keys[..p]
      {
        if j < |next| {
          assert next == order + [x] && j == |order|;
          assert r[i] == next[i] == order[i];
        } else {
          assert x in next;
          var m :| 0 <= m < |next| && next[m] == x;
          assert r[m] == x && m != j;
          assert p != 0;
          assert keys[1..][p - 1] == r[j];
          assert r[i] in next + keys[1..][..p - 1];
          assert keys[..p] == [x] + keys[1..][..p - 1];
        }
      }
    }
  }

  /** The keys of s, each once, in the order of their first occurrence in s. */
  function FirstOccurrences(s: seq<string>): (r: seq<string>)
    ensures Distinct(r)
    ensures forall k :: k in r <==> k in s
    ensures forall i, j, p :: 0 <= i < j < |r| && 0 <= p < |s| && s[p] == r[j] ==> r[i] in s[..p]
  {
    ExtendFacts([], s);
    assert forall p :: 0 <= p <= |s| ==> [] + s[..p] == s[..p];
    Extend([], s)
  }

  /** One update appends its key to the order exactly when the key is new. */
  lemma AddOrder(t: Tally, key: string, name: string, pts: nat)
    requires Valid(t) && pts > 0
    ensures Add(t, key, name, pts).order == Extend(t.order, [key])
  {
    assert [key][1..] == [];
  }

  /** The sum of the stored totals over the given keys. */
  function SumOver(keys: seq<string>, points: map<string, nat>): nat
    decreases |keys|
  {
    if keys == [] then 0
    else (if keys[0] in points then points[keys[0]] else 0) + SumOver(keys[1..], points)
  }

  /** The sum of all stored totals. */
  function Total(t: Tally): nat
  {
    SumOver(t.order, t.points)
  }

  lemma {:induction false} SumOverAppend(keys: seq<string>, k: string, points: map<string, nat>)
    ensures SumOver(keys + [k], points) == SumOver(keys, points) + (if k in points then points[k] else 0)
    decreases |keys|
  {
    if keys == [] {
      assert [] + [k] == [k];
    } else {
      assert (keys + [k])[1..] == keys[1..] + [k];
      SumOverAppend(keys[1..], k, points);
    }
  }

  lemma {:induction false} SumOverUntouched(keys: seq<string>, points: map<string, nat>, k: string, v: nat)
    requires k !in keys
    ensures SumOver(keys, points[k := v]) == SumOver(keys, points)
    decreases |keys|
  {
    if keys != [] {
      SumOverUntouched(keys[1..], points, k, v);
    }
  }

  lemma {:induction false} SumOverBump(keys: seq<string>, points: map<string, nat>, k: string, pts: nat)
    requires Distinct(keys) && k in keys && k in points
    ensures SumOver(keys, points[k := points[k] + pts]) == SumOver(keys, points) + pts
    decreases |keys|
  {
    if keys[0] == k {
      assert k !in keys[1..];
      SumOverUntouched(keys[1..], points, k, points[k] + pts);
    } else {
      SumOverBump(keys[1..], points, k, pts);
    }
  }

  /** Adding pts to one entrant raises the sum of all totals by exactly pts. */
  lemma AddTotal(t: Tally, key: string, name: string, pts: nat)
    requires Valid(t) && pts > 0
    ensures Total(Add(t, key, name, pts)) == Total(t) + pts
  {
    if key in t.points {
      SumOverBump(t.order, t.points, key, pts);
    } else {
      SumOverAppend(t.order, key, t.points[key := pts]);
      SumOverUntouched(t.order, t.points, key, pts);
    }
  }
}
