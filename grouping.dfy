/** The grouping idiom the dashboard uses: `items.reduce` into a
    `Record<string, T[]>`, creating the array for a key on first sight and
    pushing onto it (src/pages/App/scenes/History.tsx, groupItemsByDate and
    groupItemsByCategory). A JavaScript record remembers the order in which
    its keys were first set; `Groups` keeps that order explicitly. */
module Grouping {
  import opened Types
  import opened Seqs

  /** A record of arrays: its keys in insertion order and the array under each. */
  datatype Groups<T> = Groups(keys: seq<string>, members: map<string, seq<T>>)

  predicate DistinctKeys(keys: seq<string>) {
    forall i, j :: 0 <= i < j < |keys| ==> keys[i] != keys[j]
  }

  /** The record's key list and its domain agree, each key once, no empty array. */
  ghost predicate WellFormed<T>(g: Groups<T>) {
    && DistinctKeys(g.keys)
    && (forall k :: k in g.members <==> k in g.keys)
    && (forall k :: k in g.members ==> g.members[k] != [])
  }

  /** The element lands under key `k`. */
  function KeyIs<T>(keyOf: T -> Option<string>, k: string): T -> bool {
    x => keyOf(x) == Some(k)
  }

  /** The element lands under some key. */
  function IsKeyed<T>(keyOf: T -> Option<string>): T -> bool {
    x => keyOf(x).Some?
  }

  /** `if (!acc[k]) acc[k] = []; acc[k].push(x);` */
  function Push<T>(g: Groups<T>, k: string, x: T): Groups<T> {
    if k in g.members then Groups(g.keys, g.members[k := g.members[k] + [x]])
    else Groups(g.keys + [k], g.members[k := [x]])
  }

  /** The reduction, one element at a time from the left; elements whose key
      is `None` are skipped. */
  function GroupBy<T>(xs: seq<T>, keyOf: T -> Option<string>): Groups<T> {
    if xs == [] then Groups([], map[])
    else
      var g := GroupBy(xs[..|xs| - 1], keyOf);
      match keyOf(xs[|xs| - 1])
      case None => g
      case Some(k) => Push(g, k, xs[|xs| - 1])
  }

  /** The sizes of all arrays, summed over the keys. */
  function SumSizes<T>(keys: seq<string>, members: map<string, seq<T>>): nat {
    if keys == [] then 0
    else
      var k := keys[|keys| - 1];
      SumSizes(keys[..|keys| - 1], members) + (if k in members then |members[k]| else 0)
  }

  /** The reduction as the source runs it: a loop that pushes into the record. */
  method Group<T(!new)>(xs: seq<T>, keyOf: T -> Option<string>) returns (g: Groups<T>)
    ensures g == GroupBy(xs, keyOf)
    ensures WellFormed(g)
    ensures forall k :: k in g.keys <==> exists i :: 0 <= i < |xs| && keyOf(xs[i]) == Some(k)
    ensures forall k :: k in g.members ==> g.members[k] == Filter(xs, KeyIs(keyOf, k))
    ensures SumSizes(g.keys, g.members) == |Filter(xs, IsKeyed(keyOf))|
  {
    g := Groups([], map[]);
    var i := 0;
    while i < |xs|
      invariant 0 <= i <= |xs|
      invariant g == GroupBy(xs[..i], keyOf)
    {
      assert xs[..i + 1][..i] == xs[..i];
      match keyOf(xs[i]) {
        case None =>
        case Some(k) =>
          if k in g.members {
            g := Groups(g.keys, g.members[k := g.members[k] + [xs[i]]]);
          } else {
            g := Groups(g.keys + [k], g.members[k := [xs[i]]]);
          }
      }
      i := i + 1;
    }
    assert xs[..i] == xs;
    GroupByWellFormed(xs, keyOf);
    GroupByKeys(xs, keyOf);
    GroupByMembers(xs, keyOf);
    GroupBySizes(xs, keyOf);
  }

  lemma {:induction false} GroupByWellFormed<T>(xs: seq<T>, keyOf: T -> Option<string>)
    ensures WellFormed(GroupBy(xs, keyOf))
  {
    if xs != [] {
      GroupByWellFormed(xs[..|xs| - 1], keyOf);
    }
  }

  /** A key is present exactly when some element carries it. */
  lemma {:induction false} GroupByKeys<T>(xs: seq<T>, keyOf: T -> Option<string>)
    ensures forall k :: k in GroupBy(xs, keyOf).keys <==>
                        exists i :: 0 <= i < |xs| && keyOf(xs[i]) == Some(k)
  {
    if xs != [] {
      var init := xs[..|xs| - 1];
      GroupByKeys(init, keyOf);
      GroupByWellFormed(init, keyOf);
      forall k ensures k in GroupBy(xs, keyOf).keys <==>
                       exists i :: 0 <= i < |xs| && keyOf(xs[i]) == Some(k)
      {
        if exists i :: 0 <= i < |init| && keyOf(init[i]) == Some(k) {
          var i :| 0 <= i < |init| && keyOf(init[i]) == Some(k);
          assert xs[i] == init[i];
        }
        if exists i :: 0 <= i < |xs| && keyOf(xs[i]) == Some(k) {
          var i :| 0 <= i < |xs| && keyOf(xs[i]) == Some(k);
          if i < |init| { assert init[i] == xs[i]; }
        }
      }
    }
  }

  /** The array under `k` is exactly the elements with key `k`, in input order. */
  lemma {:induction false} GroupByMembers<T(!new)>(xs: seq<T>, keyOf: T -> Option<string>)
    ensures forall k :: k in GroupBy(xs, keyOf).members ==>
                        GroupBy(xs, keyOf).members[k] == Filter(xs, KeyIs(keyOf, k))
  {
    if xs != [] {
      var init, last := xs[..|xs| - 1], xs[|xs| - 1];
      assert xs == init + [last];
      GroupByMembers(init, keyOf);
      forall k | k in GroupBy(xs, keyOf).members
        ensures GroupBy(xs, keyOf).members[k] == Filter(xs, KeyIs(keyOf, k))
      {
        MembersStep(init, last, keyOf, k);
      }
    }
  }

  /** Pushing one more element keeps the array under `k` equal to the
      elements with key `k`. */
  lemma MembersStep<T(!new)>(init: seq<T>, last: T, keyOf: T -> Option<string>, k: string)
    requires forall k :: k in GroupBy(init, keyOf).members ==>
                         GroupBy(init, keyOf).members[k] == Filter(init, KeyIs(keyOf, k))
    requires k in GroupBy(init + [last], keyOf).members
    ensures GroupBy(init + [last], keyOf).members[k] == Filter(init + [last], KeyIs(keyOf, k))
  {
    var xs := init + [last];
    assert xs[..|xs| - 1] == init && xs[|xs| - 1] == last;
    GroupByWellFormed(init, keyOf);
    FilterAppend(init, [last], KeyIs(keyOf, k));
    if k !in GroupBy(init, keyOf).members {
      GroupByKeys(init, keyOf);
      NoKeyNoMembers(init, keyOf, k);
    }
  }

  /** No element carries a key the record does not have. */
  lemma {:induction false} NoKeyNoMembers<T(!new)>(xs: seq<T>, keyOf: T -> Option<string>, k: string)
    requires forall i :: 0 <= i < |xs| ==> keyOf(xs[i]) != Some(k)
    ensures Filter(xs, KeyIs(keyOf, k)) == []
  {
    if xs != [] {
      assert forall i :: 0 <= i < |xs[1..]| ==> xs[1..][i] == xs[i + 1];
      NoKeyNoMembers(xs[1..], keyOf, k);
    }
  }

  /** Every keyed element is counted once: the array sizes add up to the
      number of keyed elements. */
  lemma {:induction false} GroupBySizes<T(!new)>(xs: seq<T>, keyOf: T -> Option<string>)
    ensures SumSizes(GroupBy(xs, keyOf).keys, GroupBy(xs, keyOf).members)
            == |Filter(xs, IsKeyed(keyOf))|
  {
    if xs != [] {
      var init, last := xs[..|xs| - 1], xs[|xs| - 1];
      assert xs == init + [last];
      FilterAppend(init, [last], IsKeyed(keyOf));
      GroupBySizes(init, keyOf);
      GroupByWellFormed(init, keyOf);
      var g := GroupBy(init, keyOf);
      match keyOf(last)
      case None =>
      case Some(k) =>
        if k in g.members {
          SumSizesUpdate(g.keys, g.members, k, g.members[k] + [last]);
        } else {
          SumSizesFresh(g.keys, g.members, k, [last]);
          assert (g.keys + [k])[..|g.keys|] == g.keys;
        }
    }
  }

  /** Replacing the array under a key listed once changes the sum by the size difference. */
  lemma {:induction false} SumSizesUpdate<T>(keys: seq<string>, m: map<string, seq<T>>, k: string, v: seq<T>)
    requires forall x :: x in keys ==> x in m
    requires DistinctKeys(keys) && k in keys
    ensures SumSizes(keys, m[k := v]) == SumSizes(keys, m) - |m[k]| + |v|
  {
    var init := keys[..|keys| - 1];
    if keys[|keys| - 1] == k {
      forall i | 0 <= i < |init| ensures init[i] != k {
        assert keys[i] != keys[|keys| - 1];
      }
      SumSizesFresh(init, m, k, v);
    } else {
      assert k in init by {
        var i :| 0 <= i < |keys| && keys[i] == k;
        assert init[i] == k;
      }
      SumSizesUpdate(init, m, k, v);
    }
  }

  /** Setting a key that is not listed leaves the sum alone. */
  lemma {:induction false} SumSizesFresh<T>(keys: seq<string>, m: map<string, seq<T>>, k: string, v: seq<T>)
    requires k !in keys
    ensures SumSizes(keys, m[k := v]) == SumSizes(keys, m)
  {
    if keys != [] {
      SumSizesFresh(keys[..|keys| - 1], m, k, v);
    }
  }

  /** Keys are only ever appended: the keys of a prefix of the input are a
      prefix of the keys of the whole input. */
  lemma {:induction false} GroupByKeysPrefix<T>(xs: seq<T>, keyOf: T -> Option<string>, n: nat)
    requires n <= |xs|
    ensures GroupBy(xs[..n], keyOf).keys <= GroupBy(xs, keyOf).keys
  {
    if n < |xs| {
      var init := xs[..|xs| - 1];
      assert init[..n] == xs[..n];
      GroupByKeysPrefix(init, keyOf, n);
    } else {
      assert xs[..n] == xs;
    }
  }

  /** Keys appear in the order their first element appears: a key carried by
      element `p` comes before any key that no element up to `p` carries. */
  lemma GroupByKeyOrder<T>(xs: seq<T>, keyOf: T -> Option<string>, p: int, k: string)
    requires 0 <= p < |xs| && keyOf(xs[p]).Some?
    requires k in GroupBy(xs, keyOf).keys
    requires forall q :: 0 <= q <= p ==> keyOf(xs[q]) != Some(k)
    ensures exists a, b :: 0 <= a < b < |GroupBy(xs, keyOf).keys|
                           && GroupBy(xs, keyOf).keys[a] == keyOf(xs[p]).value
                           && GroupBy(xs, keyOf).keys[b] == k
  {
    var keys := GroupBy(xs, keyOf).keys;
    var pre := xs[..p + 1];
    var pk := GroupBy(pre, keyOf).keys;
    GroupByKeysPrefix(xs, keyOf, p + 1);
    GroupByKeys(pre, keyOf);
    assert pre[p] == xs[p];
    var a :| 0 <= a < |pk| && pk[a] == keyOf(xs[p]).value;
    assert forall q :: 0 <= q < |pre| ==> pre[q] == xs[q];
    assert forall j :: 0 <= j < |pk| ==> pk[j] != k by {
      forall j | 0 <= j < |pk| ensures pk[j] != k {
        assert pk[j] in pk;
      }
    }
    var b :| 0 <= b < |keys| && keys[b] == k;
    assert forall j :: 0 <= j < |pk| ==> keys[j] == pk[j];
    assert b >= |pk|;
  }

  /** A key the record does not have holds no element. */
  lemma AbsentKeyNoMembers<T(!new)>(xs: seq<T>, keyOf: T -> Option<string>, k: string)
    requires k !in GroupBy(xs, keyOf).keys
    ensures Filter(xs, KeyIs(keyOf, k)) == []
  {
    GroupByKeys(xs, keyOf);
    NoKeyNoMembers(xs, keyOf, k);
  }
}
