/** Order-preserving filtering of sequences: the model of JavaScript's
    `Array.prototype.filter`, which every handler and view in the extension uses. */
module Seqs {

  /** The elements of `xs` satisfying `p`, in their original order. */
  function Filter<T(!new)>(xs: seq<T>, p: T -> bool): (r: seq<T>)
    ensures |r| <= |xs|
    ensures forall x :: x in r <==> x in xs && p(x)
  {
    if xs == [] then [] else (if p(xs[0]) then [xs[0]] else []) + Filter(xs[1..], p)
  }

  /** Filtering distributes over concatenation. */
  lemma {:induction false} FilterAppend<T(!new)>(xs: seq<T>, ys: seq<T>, p: T -> bool)
    ensures Filter(xs + ys, p) == Filter(xs, p) + Filter(ys, p)
  {
    if xs != [] {
      assert (xs + ys)[1..] == xs[1..] + ys;
      FilterAppend(xs[1..], ys, p);
    } else {
      assert xs + ys == ys;
    }
  }

  /** A sequence whose every element satisfies `p` is its own filter. */
  lemma {:induction false} FilterKeepsAll<T(!new)>(xs: seq<T>, p: T -> bool)
    requires forall i :: 0 <= i < |xs| ==> p(xs[i])
    ensures Filter(xs, p) == xs
  {
    if xs != [] {
      FilterKeepsAll(xs[1..], p);
    }
  }

  /** A sequence none of whose elements satisfies `p` filters to nothing. */
  lemma {:induction false} FilterDropsAll<T(!new)>(xs: seq<T>, p: T -> bool)
    requires forall i :: 0 <= i < |xs| ==> !p(xs[i])
    ensures Filter(xs, p) == []
  {
    if xs != [] {
      FilterDropsAll(xs[1..], p);
    }
  }

  /** Filtering twice by the same predicate is filtering once. */
  lemma FilterIdempotent<T(!new)>(xs: seq<T>, p: T -> bool)
    ensures Filter(Filter(xs, p), p) == Filter(xs, p)
  {
    var r := Filter(xs, p);
    forall i | 0 <= i < |r| ensures p(r[i]) {
      assert r[i] in r;
    }
    FilterKeepsAll(r, p);
  }

  /** The two halves of a partition by `p` add up to the whole sequence. */
  lemma {:induction false} FilterPartitionLength<T(!new)>(xs: seq<T>, p: T -> bool, q: T -> bool)
    requires forall x :: q(x) == !p(x)
    ensures |Filter(xs, p)| + |Filter(xs, q)| == |xs|
  {
    if xs != [] {
      FilterPartitionLength(xs[1..], p, q);
    }
  }

  /** No two positions of `xs` carry the same key (unique ids, unique names). */
  predicate DistinctBy<T, K(==)>(xs: seq<T>, key: T -> K) {
    forall i, j :: 0 <= i < j < |xs| ==> key(xs[i]) != key(xs[j])
  }

  /** Dropping elements cannot make two keys collide. */
  lemma {:induction false} FilterDistinctBy<T(!new), K>(xs: seq<T>, p: T -> bool, key: T -> K)
    requires DistinctBy(xs, key)
    ensures DistinctBy(Filter(xs, p), key)
  {
    if xs != [] {
      var rest := Filter(xs[1..], p);
      FilterDistinctBy(xs[1..], p, key);
      forall j | 0 <= j < |rest| ensures key(rest[j]) != key(xs[0]) {
        assert rest[j] in xs[1..];
        var k :| 0 <= k < |xs[1..]| && xs[1..][k] == rest[j];
        assert xs[k + 1] == rest[j];
      }
    }
  }

  /** `r` is `xs` with some elements left out: every element of `r` occurs
      in `xs`, in the same relative order. */
  predicate IsSubsequence<T(==)>(r: seq<T>, xs: seq<T>) {
    if r == [] then true
    else if xs == [] then false
    else if r[0] == xs[0] then IsSubsequence(r[1..], xs[1..])
    else IsSubsequence(r, xs[1..])
  }

  /** A subsequence of the tail is a subsequence of the whole. */
  lemma {:induction false} SubsequenceOfTail<T>(r: seq<T>, xs: seq<T>)
    requires xs != [] && IsSubsequence(r, xs[1..])
    ensures IsSubsequence(r, xs)
    decreases |xs|, 0
  {
    if r != [] && r[0] == xs[0] {
      SubsequenceDropHead(r, xs[1..]);
    }
  }

  /** Leaving out the first element keeps a subsequence a subsequence. */
  lemma {:induction false} SubsequenceDropHead<T>(r: seq<T>, ys: seq<T>)
    requires r != [] && IsSubsequence(r, ys)
    ensures IsSubsequence(r[1..], ys)
    decreases |ys|, 1
  {
    if r[0] == ys[0] {
      SubsequenceOfTail(r[1..], ys);
    } else {
      SubsequenceDropHead(r, ys[1..]);
      SubsequenceOfTail(r[1..], ys);
    }
  }

  /** Filtering keeps the relative order of what it keeps. */
  lemma {:induction false} FilterIsSubsequence<T(!new)>(xs: seq<T>, p: T -> bool)
    ensures IsSubsequence(Filter(xs, p), xs)
  {
    if xs != [] {
      FilterIsSubsequence(xs[1..], p);
      if p(xs[0]) {
        assert Filter(xs, p)[1..] == Filter(xs[1..], p);
      } else {
        assert Filter(xs, p) == Filter(xs[1..], p);
        SubsequenceOfTail(Filter(xs[1..], p), xs);
      }
    }
  }

  /** `Array.prototype.findIndex`, with `|xs|` standing for "not found": the
      position of the first element satisfying `p`. */
  function FirstIndex<T>(xs: seq<T>, p: T -> bool): (r: nat)
    ensures r <= |xs|
    ensures r < |xs| ==> p(xs[r])
    ensures forall j :: 0 <= j < r ==> !p(xs[j])
  {
    if xs == [] then 0
    else if p(xs[0]) then 0
    else
      var r := FirstIndex(xs[1..], p);
      assert forall j :: 0 < j <= r ==> xs[j] == xs[1..][j - 1];
      1 + r
  }

  /** Appending one element adds one to a filter's size exactly when the
      element passes. */
  lemma FilterSnocLength<T(!new)>(xs: seq<T>, x: T, p: T -> bool)
    ensures |Filter(xs + [x], p)| == |Filter(xs, p)| + (if p(x) then 1 else 0)
  {
    FilterAppend(xs, [x], p);
  }

  /** An element that passes makes the filter non-empty. */
  lemma FilterHasMember<T(!new)>(xs: seq<T>, p: T -> bool, i: int)
    requires 0 <= i < |xs| && p(xs[i])
    ensures |Filter(xs, p)| > 0
  {
    assert xs[i] in Filter(xs, p);
  }

  /** Filtering keeps every copy of an element that passes and no copy of one
      that fails. */
  lemma {:induction false} FilterCount<T(!new)>(xs: seq<T>, p: T -> bool)
    ensures forall x :: multiset(Filter(xs, p))[x] == if p(x) then multiset(xs)[x] else 0
  {
    if xs != [] {
      FilterCount(xs[1..], p);
      assert xs == [xs[0]] + xs[1..];
    }
  }

  /** The positions of `xs` whose element satisfies `p`. */
  function Positions<T>(xs: seq<T>, p: T -> bool): set<int> {
    set i | 0 <= i < |xs| && p(xs[i])
  }

  /** A filter is as long as the number of positions that pass. */
  lemma {:induction false} FilterLengthIsPositions<T(!new)>(xs: seq<T>, p: T -> bool)
    ensures |Filter(xs, p)| == |Positions(xs, p)|
  {
    if xs != [] {
      var init := xs[..|xs| - 1];
      var last := xs[|xs| - 1];
      FilterLengthIsPositions(init, p);
      assert init + [last] == xs;
      FilterSnocLength(init, last, p);
      PositionsSnoc(init, last, p);
    }
  }

  /** Appending one element adds its position exactly when it passes. */
  lemma PositionsSnoc<T>(init: seq<T>, last: T, p: T -> bool)
    ensures |Positions(init + [last], p)| == |Positions(init, p)| + (if p(last) then 1 else 0)
  {
    var xs := init + [last];
    var n := |init|;
    var extra: set<int> := if p(last) then {n} else {};
    forall i ensures i in Positions(xs, p) <==> i in Positions(init, p) + extra {
      if 0 <= i < n {
        assert xs[i] == init[i];
      }
    }
    assert Positions(xs, p) == Positions(init, p) + extra;
    assert n !in Positions(init, p);
  }
}
