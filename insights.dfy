/** The Insights scene (src/pages/App/scenes/Insights.tsx): the top source
    website, the top category and the three counters. */
module Insights {
  import opened Types
  import opened Seqs
  import opened Grouping
  import opened ListItem

  /** `item.source?.hostname` when it is truthy: the key a record is counted under. */
  function HostKeyOf(it: Item): Option<string> {
    if it.source.Some? && it.source.value.hostname != "" then Some(it.source.value.hostname) else None
  }

  /** How many records, trashed ones included, were copied from hostname `h`. */
  function SourceCount(items: seq<Item>, h: string): nat {
    |Filter(items, KeyIs(HostKeyOf, h))|
  }

  /** `counts[k] || 0`. */
  function CountOf(counts: map<string, nat>, k: string): nat {
    if k in counts then counts[k] else 0
  }

  /** The accumulator of the "top" reductions: a name and its count. */
  datatype Top = Top(name: string, count: nat)

  /** The reductions over `Object.keys`/`Object.entries` that pick the top
      name: start from ("", 0), and move to a key only when its count is
      strictly greater, so that ties stay with the earlier key. */
  function PickTop(keys: seq<string>, counts: map<string, nat>): (r: Top)
    ensures r.count == 0 ==> r.name == ""
    ensures forall k :: k in keys ==> CountOf(counts, k) <= r.count
    ensures r.count > 0 ==>
              r.count == CountOf(counts, r.name)
              && exists i :: 0 <= i < |keys| && keys[i] == r.name
                             && forall j :: 0 <= j < i ==> CountOf(counts, keys[j]) < r.count
  {
    if keys == [] then Top("", 0)
    else
      var init := keys[..|keys| - 1];
      var k := keys[|keys| - 1];
      var top := PickTop(init, counts);
      assert forall j :: 0 <= j < |init| ==> keys[j] == init[j];
      assert forall x :: x in keys ==> x in init || x == k;
      if CountOf(counts, k) > top.count then Top(k, CountOf(counts, k)) else top
  }

  /** A key counted zero times never wins, so dropping such keys first (the
      `nonEmptyGrouped` step) does not change the pick. */
  lemma {:induction false} PickTopSkipsZeros(keys: seq<string>, counts: map<string, nat>)
    ensures PickTop(Filter(keys, NonZero(counts)), counts) == PickTop(keys, counts)
  {
    if keys != [] {
      var init, k := keys[..|keys| - 1], keys[|keys| - 1];
      assert keys == init + [k];
      FilterAppend(init, [k], NonZero(counts));
      PickTopSkipsZeros(init, counts);
      var fi := Filter(init, NonZero(counts));
      if NonZero(counts)(k) {
        assert (fi + [k])[..|fi + [k]| - 1] == fi;
      } else {
        assert Filter(keys, NonZero(counts)) == fi;
      }
    }
  }

  /** The key has a non-zero count. */
  function NonZero(counts: map<string, nat>): string -> bool {
    k => CountOf(counts, k) > 0
  }

  /** The counting `reduce` of `getTopSourceWebsite`: one entry per truthy
      hostname, in the order hostnames first appear, holding how many records
      carry it. */
  method CountSources(items: seq<Item>) returns (keys: seq<string>, counts: map<string, nat>)
    ensures SourceTally(items, keys, counts)
  {
    keys, counts := [], map[];
    var i := 0;
    while i < |items|
      invariant 0 <= i <= |items|
      invariant Tallied(items[..i], keys, counts)
    {
      assert items[..i + 1] == items[..i] + [items[i]];
      var it := items[i];
      if it.source.Some? && it.source.value.hostname != "" {
        var h := it.source.value.hostname;
        if h in counts {
          TallyKnown(items[..i], it, keys, counts);
          counts := counts[h := counts[h] + 1];
        } else {
          TallyNew(items[..i], it, keys, counts);
          keys := keys + [h];
          counts := counts[h := 1];
        }
      } else {
        TallySkip(items[..i], it, keys, counts);
      }
      i := i + 1;
    }
    assert items[..i] == items;
    GroupByWellFormed(items, HostKeyOf);
    GroupByKeys(items, HostKeyOf);
  }

  /** The loop invariant of `CountSources`: `keys` and `counts` are the
      record built from `pre`. */
  ghost predicate Tallied(pre: seq<Item>, keys: seq<string>, counts: map<string, nat>) {
    && keys == GroupBy(pre, HostKeyOf).keys
    && (forall k :: k in counts <==> k in keys)
    && (forall k :: k in counts ==> counts[k] == SourceCount(pre, k))
  }

  /** A record without a truthy hostname leaves the tally as it is. */
  lemma TallySkip(pre: seq<Item>, x: Item, keys: seq<string>, counts: map<string, nat>)
    requires Tallied(pre, keys, counts) && HostKeyOf(x).None?
    ensures Tallied(pre + [x], keys, counts)
  {
    var xs := pre + [x];
    assert xs[..|xs| - 1] == pre;
    SourceCountSnoc(pre, x);
  }

  /** A record from a hostname already counted adds one to its count. */
  lemma TallyKnown(pre: seq<Item>, x: Item, keys: seq<string>, counts: map<string, nat>)
    requires Tallied(pre, keys, counts) && HostKeyOf(x).Some? && HostKeyOf(x).value in counts
    ensures var h := HostKeyOf(x).value;
            Tallied(pre + [x], keys, counts[h := counts[h] + 1])
  {
    var xs := pre + [x];
    assert xs[..|xs| - 1] == pre;
    GroupByWellFormed(pre, HostKeyOf);
    SourceCountSnoc(pre, x);
    var g := GroupBy(pre, HostKeyOf);
    assert HostKeyOf(x).value in g.members;
  }

  /** A record from a new hostname appends the hostname with a count of one. */
  lemma TallyNew(pre: seq<Item>, x: Item, keys: seq<string>, counts: map<string, nat>)
    requires Tallied(pre, keys, counts) && HostKeyOf(x).Some? && HostKeyOf(x).value !in counts
    ensures var h := HostKeyOf(x).value;
            Tallied(pre + [x], keys + [h], counts[h := 1])
  {
    var xs := pre + [x];
    var h := HostKeyOf(x).value;
    assert xs[..|xs| - 1] == pre;
    GroupByWellFormed(pre, HostKeyOf);
    SourceCountSnoc(pre, x);
    assert h !in GroupBy(pre, HostKeyOf).members;
    AbsentKeyNoMembers(pre, HostKeyOf, h);
  }

  /** Appending a record adds one to its own hostname's count and nothing to the others. */
  lemma SourceCountSnoc(pre: seq<Item>, x: Item)
    ensures forall k :: SourceCount(pre + [x], k) == SourceCount(pre, k) + (if HostKeyOf(x) == Some(k) then 1 else 0)
  {
    forall k ensures SourceCount(pre + [x], k) == SourceCount(pre, k) + (if HostKeyOf(x) == Some(k) then 1 else 0) {
      FilterSnocLength(pre, x, KeyIs(HostKeyOf, k));
    }
  }

  /** The record carries a source with hostname `h`. */
  function HasHost(h: string): Item -> bool {
    (it: Item) => it.source.Some? && it.source.value.hostname == h
  }

  /** `items.find(item => item.source?.hostname === h)?.source || null`. */
  function FindHost(items: seq<Item>, h: string): (r: Option<Source>)
    ensures r.None? <==> forall i :: 0 <= i < |items| ==> !HasHost(h)(items[i])
    ensures r.Some? ==> r.value.hostname == h
                        && exists i :: 0 <= i < |items| && items[i].source == r
                                       && forall j :: 0 <= j < i ==> !HasHost(h)(items[j])
  {
    var i := FirstIndex(items, HasHost(h));
    if i < |items| then items[i].source else None
  }

  /** `getTopSourceWebsite`. With at least one truthy hostname, it returns the
      source of the first record from the most frequent hostname, ties going
      to the hostname that appears first; with none, it falls back to the
      first record whose hostname is the empty string, if any. */
  method TopSourceWebsite(items: seq<Item>) returns (r: Option<Source>)
    ensures items == [] ==> r.None?
    ensures (exists i :: 0 <= i < |items| && HostKeyOf(items[i]).Some?) ==>
              r.Some? && r.value.hostname != ""
              && (forall h :: SourceCount(items, h) <= SourceCount(items, r.value.hostname))
              && (exists i :: 0 <= i < |items| && items[i].source == r
                              && forall j :: 0 <= j < i ==> !HasHost(r.value.hostname)(items[j]))
              && (forall p :: 0 <= p < |items| && HostKeyOf(items[p]).Some?
                              && (forall q :: 0 <= q <= p ==> !HasHost(r.value.hostname)(items[q]))
                              ==> SourceCount(items, items[p].source.value.hostname)
                                  < SourceCount(items, r.value.hostname))
    ensures (forall i :: 0 <= i < |items| ==> HostKeyOf(items[i]).None?) ==> r == FindHost(items, "")
  {
    if items == [] {
      return None;
    }
    var keys, counts := CountSources(items);
    var top := PickTop(keys, counts);
    r := FindHost(items, top.name);
    TopSourceResult(items, keys, counts);
  }

  /** The postcondition of `TopSourceWebsite` from what `CountSources` establishes. */
  lemma TopSourceResult(items: seq<Item>, keys: seq<string>, counts: map<string, nat>)
    requires SourceTally(items, keys, counts)
    ensures var r := FindHost(items, PickTop(keys, counts).name);
            && ((exists i :: 0 <= i < |items| && HostKeyOf(items[i]).Some?) ==>
                  r.Some? && r.value.hostname != ""
                  && (forall h :: SourceCount(items, h) <= SourceCount(items, r.value.hostname))
                  && (exists i :: 0 <= i < |items| && items[i].source == r
                                  && forall j :: 0 <= j < i ==> !HasHost(r.value.hostname)(items[j]))
                  && (forall p :: 0 <= p < |items| && HostKeyOf(items[p]).Some?
                                  && (forall q :: 0 <= q <= p ==> !HasHost(r.value.hostname)(items[q]))
                                  ==> SourceCount(items, items[p].source.value.hostname)
                                      < SourceCount(items, r.value.hostname)))
            && ((forall i :: 0 <= i < |items| ==> HostKeyOf(items[i]).None?) ==> r == FindHost(items, ""))
  {
    var top := PickTop(keys, counts);
    if exists i :: 0 <= i < |items| && HostKeyOf(items[i]).Some? {
      TopHostFound(items, keys, counts);
      TopHostIsMost(items, keys, counts);
      forall p | 0 <= p < |items| && HostKeyOf(items[p]).Some?
                 && (forall q :: 0 <= q <= p ==> !HasHost(top.name)(items[q]))
        ensures SourceCount(items, items[p].source.value.hostname) < SourceCount(items, top.name)
      {
        TopHostTie(items, keys, counts, p);
      }
    } else {
      NoHostNoTop(items, keys, counts);
    }
  }

  /** What `CountSources` establishes: `keys` are the distinct truthy
      hostnames in first-seen order, and each maps to its number of records. */
  ghost predicate SourceTally(items: seq<Item>, keys: seq<string>, counts: map<string, nat>) {
    && keys == GroupBy(items, HostKeyOf).keys
    && DistinctKeys(keys) && "" !in keys
    && (forall k :: k in keys <==> exists i :: 0 <= i < |items| && HostKeyOf(items[i]) == Some(k))
    && (forall k :: k in counts <==> k in keys)
    && (forall k :: k in counts ==> counts[k] == SourceCount(items, k))
  }

  /** With a truthy hostname somewhere, the pick is a counted hostname and
      some record carries it. */
  lemma TopHostFound(items: seq<Item>, keys: seq<string>, counts: map<string, nat>)
    requires SourceTally(items, keys, counts)
    requires exists i :: 0 <= i < |items| && HostKeyOf(items[i]).Some?
    ensures var top := PickTop(keys, counts);
            top.count > 0 && top.name in keys && top.name != ""
            && top.count == SourceCount(items, top.name)
            && FindHost(items, top.name).Some?
  {
    var i :| 0 <= i < |items| && HostKeyOf(items[i]).Some?;
    HostCounted(items, keys, counts, i);
    var top := PickTop(keys, counts);
    KeyedHostFound(items, keys, counts, top.name);
  }

  /** A record's truthy hostname has a non-zero count. */
  lemma HostCounted(items: seq<Item>, keys: seq<string>, counts: map<string, nat>, i: int)
    requires SourceTally(items, keys, counts)
    requires 0 <= i < |items| && HostKeyOf(items[i]).Some?
    ensures CountOf(counts, HostKeyOf(items[i]).value) > 0
  {
    var k := HostKeyOf(items[i]).value;
    FilterHasMember(items, KeyIs(HostKeyOf, k), i);
    assert k in keys;
  }

  /** A counted hostname is truthy, its count is its number of records, and
      some record carries it. */
  lemma KeyedHostFound(items: seq<Item>, keys: seq<string>, counts: map<string, nat>, w: string)
    requires SourceTally(items, keys, counts)
    requires w in keys
    ensures w != "" && CountOf(counts, w) == SourceCount(items, w) && FindHost(items, w).Some?
  {
    var iw :| 0 <= iw < |items| && HostKeyOf(items[iw]) == Some(w);
    assert HasHost(w)(items[iw]);
  }

  /** No hostname is counted more often than the pick. */
  lemma TopHostIsMost(items: seq<Item>, keys: seq<string>, counts: map<string, nat>)
    requires SourceTally(items, keys, counts)
    ensures forall h :: SourceCount(items, h) <= PickTop(keys, counts).count
  {
    forall h ensures SourceCount(items, h) <= PickTop(keys, counts).count {
      if h !in keys {
        NoKeyNoMembers(items, HostKeyOf, h);
      }
    }
  }

  /** A hostname that shows up before the pick's first record has a strictly
      smaller count. */
  lemma TopHostTie(items: seq<Item>, keys: seq<string>, counts: map<string, nat>, p: int)
    requires SourceTally(items, keys, counts)
    requires PickTop(keys, counts).count > 0
    requires 0 <= p < |items| && HostKeyOf(items[p]).Some?
    requires forall q :: 0 <= q <= p ==> !HasHost(PickTop(keys, counts).name)(items[q])
    ensures SourceCount(items, items[p].source.value.hostname) < PickTop(keys, counts).count
  {
    var w := PickTop(keys, counts).name;
    assert forall q :: 0 <= q <= p ==> HostKeyOf(items[q]) != Some(w) by {
      forall q | 0 <= q <= p ensures HostKeyOf(items[q]) != Some(w) {
        assert !HasHost(w)(items[q]);
      }
    }
    GroupByKeyOrder(items, HostKeyOf, p, w);
  }

  /** Without truthy hostnames nothing is counted and the pick stays "". */
  lemma NoHostNoTop(items: seq<Item>, keys: seq<string>, counts: map<string, nat>)
    requires SourceTally(items, keys, counts)
    requires forall i :: 0 <= i < |items| ==> HostKeyOf(items[i]).None?
    ensures PickTop(keys, counts).name == ""
  {
  }

  /** `categoryName && grouped[categoryName]`: the record is filed under the
      non-empty name `n`. */
  function InCategory(n: string): Item -> bool {
    (it: Item) => n != "" && it.category.Some? && it.category.value.name == n
  }

  /** How many records are filed under category name `n`. */
  function CategoryCount(items: seq<Item>, n: string): nat {
    |Filter(items, InCategory(n))|
  }

  /** Categories are keyed by their exact name. */
  function NameKeyOf(c: Category): Option<string> {
    Some(c.name)
  }

  /** The category is named exactly `n`. */
  function IsNamed(n: string): Category -> bool {
    (c: Category) => c.name == n
  }

  /** `categories.find(category => category.name === n) || null`. */
  function FindNamed(categories: seq<Category>, n: string): (r: Option<Category>)
    ensures r.None? <==> forall i :: 0 <= i < |categories| ==> categories[i].name != n
    ensures r.Some? ==> r.value.name == n
                        && exists i :: 0 <= i < |categories| && categories[i] == r.value
                                       && forall j :: 0 <= j < i ==> categories[j].name != n
  {
    var i := FirstIndex(categories, IsNamed(n));
    if i < |categories| then Some(categories[i]) else None
  }

  /** Some record is filed under the name of some category. */
  predicate AnyFiled(items: seq<Item>, categories: seq<Category>) {
    exists i, j :: 0 <= i < |items| && 0 <= j < |categories| && InCategory(categories[j].name)(items[i])
  }

  /** `getTopCategory`. When some record is filed under a category's name, it
      returns the first category carrying the most used name, ties going to
      the name listed first; otherwise the first category named "", if any. */
  method TopCategory(items: seq<Item>, categories: seq<Category>) returns (r: Option<Category>)
    ensures r.Some? ==> exists i :: 0 <= i < |categories| && categories[i] == r.value
                                    && forall j :: 0 <= j < i ==> categories[j].name != r.value.name
    ensures AnyFiled(items, categories) ==>
              r.Some? && CategoryCount(items, r.value.name) > 0
              && (forall j :: 0 <= j < |categories| ==>
                    CategoryCount(items, categories[j].name) <= CategoryCount(items, r.value.name))
              && (forall p :: 0 <= p < |categories|
                              && (forall q :: 0 <= q <= p ==> categories[q].name != r.value.name)
                              ==> CategoryCount(items, categories[p].name) < CategoryCount(items, r.value.name))
    ensures !AnyFiled(items, categories) ==> r == FindNamed(categories, "")
  {
    var names, zeros := ListNames(categories);
    var counts := CountFiled(items, names, zeros);
    GroupByWellFormed(categories, NameKeyOf);
    GroupByKeys(categories, NameKeyOf);
    // Object.entries(...).filter(non-empty).reduce(...), then categories.find.
    var nonEmpty := Filter(names, NonZero(counts));
    var top := PickTop(nonEmpty, counts);
    PickTopSkipsZeros(names, counts);
    r := FindNamed(categories, top.name);
    TopCategoryResult(items, categories, names, counts);
  }

  /** `categories.reduce(...)`: an empty array (here a zero count) per
      distinct category name, names in the order they are first listed. */
  method ListNames(categories: seq<Category>) returns (names: seq<string>, counts: map<string, nat>)
    ensures NamesListed(categories, names, counts)
  {
    names, counts := [], map[];
    var i := 0;
    while i < |categories|
      invariant 0 <= i <= |categories|
      invariant NamesListed(categories[..i], names, counts)
    {
      assert categories[..i + 1] == categories[..i] + [categories[i]];
      NamesStep(categories[..i], categories[i], names, counts);
      var name := categories[i].name;
      if name !in counts {
        names := names + [name];
      }
      counts := counts[name := 0];
      i := i + 1;
    }
    assert categories[..i] == categories;
  }

  /** `items.forEach(...)`: each record filed under a non-empty listed name
      is counted under that name. */
  method CountFiled(items: seq<Item>, names: seq<string>, zeros: map<string, nat>) returns (counts: map<string, nat>)
    requires forall k :: k in zeros <==> k in names
    requires forall k :: k in zeros ==> zeros[k] == 0
    ensures FiledCounted(items, names, counts)
  {
    counts := zeros;
    var n := 0;
    while n < |items|
      invariant 0 <= n <= |items|
      invariant FiledCounted(items[..n], names, counts)
    {
      assert items[..n + 1] == items[..n] + [items[n]];
      var item := items[n];
      if item.category.Some? && item.category.value.name != "" && item.category.value.name in counts {
        var cn := item.category.value.name;
        FiledCount(items[..n], item, names, counts);
        counts := counts[cn := counts[cn] + 1];
      } else {
        FiledSkip(items[..n], item, names, counts);
      }
      n := n + 1;
    }
    assert items[..n] == items;
  }

  /** The postcondition of `TopCategory` from the invariants of its loops. */
  lemma TopCategoryResult(items: seq<Item>, categories: seq<Category>, names: seq<string>, counts: map<string, nat>)
    requires CategoryTally(items, categories, names, counts)
    ensures var r := FindNamed(categories, PickTop(names, counts).name);
            && (AnyFiled(items, categories) ==>
                  r.Some? && CategoryCount(items, r.value.name) > 0
                  && (forall j :: 0 <= j < |categories| ==>
                        CategoryCount(items, categories[j].name) <= CategoryCount(items, r.value.name))
                  && (forall p :: 0 <= p < |categories|
                                  && (forall q :: 0 <= q <= p ==> categories[q].name != r.value.name)
                                  ==> CategoryCount(items, categories[p].name) < CategoryCount(items, r.value.name)))
            && (!AnyFiled(items, categories) ==> r == FindNamed(categories, ""))
  {
    var top := PickTop(names, counts);
    if AnyFiled(items, categories) {
      TopCategoryFound(items, categories, names, counts);
      TopCategoryIsMost(items, categories, names, counts);
      forall p | 0 <= p < |categories| && (forall q :: 0 <= q <= p ==> categories[q].name != top.name)
        ensures CategoryCount(items, categories[p].name) < CategoryCount(items, top.name)
      {
        TopCategoryTie(items, categories, names, counts, p);
      }
    } else {
      NoneFiledNoTop(items, categories, names, counts);
    }
  }

  /** The invariant of the first loop of `TopCategory`: one zero count per
      distinct name of `pre`, names in first-seen order. */
  ghost predicate NamesListed(pre: seq<Category>, names: seq<string>, counts: map<string, nat>) {
    && names == GroupBy(pre, NameKeyOf).keys
    && (forall k :: k in counts <==> k in names)
    && (forall k :: k in counts ==> counts[k] == 0)
  }

  lemma NamesStep(pre: seq<Category>, c: Category, names: seq<string>, counts: map<string, nat>)
    requires NamesListed(pre, names, counts)
    ensures c.name !in counts ==> NamesListed(pre + [c], names + [c.name], counts[c.name := 0])
    ensures c.name in counts ==> NamesListed(pre + [c], names, counts[c.name := 0])
  {
    var xs := pre + [c];
    assert xs[..|xs| - 1] == pre;
    GroupByWellFormed(pre, NameKeyOf);
  }

  /** The invariant of the second loop of `TopCategory`: every listed name
      holds the number of records of `pre` filed under it. */
  ghost predicate FiledCounted(pre: seq<Item>, names: seq<string>, counts: map<string, nat>) {
    && (forall k :: k in counts <==> k in names)
    && (forall k :: k in counts ==> counts[k] == CategoryCount(pre, k))
  }

  /** Appending a record adds one to its own category name's count and
      nothing to the others. */
  lemma CategoryCountSnoc(pre: seq<Item>, x: Item)
    ensures forall k :: CategoryCount(pre + [x], k) == CategoryCount(pre, k) + (if InCategory(k)(x) then 1 else 0)
  {
    forall k ensures CategoryCount(pre + [x], k) == CategoryCount(pre, k) + (if InCategory(k)(x) then 1 else 0) {
      FilterSnocLength(pre, x, InCategory(k));
    }
  }

  /** A record filed under a listed name adds one to that name's count. */
  lemma FiledCount(pre: seq<Item>, x: Item, names: seq<string>, counts: map<string, nat>)
    requires FiledCounted(pre, names, counts)
    requires x.category.Some? && x.category.value.name != "" && x.category.value.name in counts
    ensures var cn := x.category.value.name;
            FiledCounted(pre + [x], names, counts[cn := counts[cn] + 1])
  {
    CategoryCountSnoc(pre, x);
  }

  /** Any other record leaves the counts as they are. */
  lemma FiledSkip(pre: seq<Item>, x: Item, names: seq<string>, counts: map<string, nat>)
    requires FiledCounted(pre, names, counts)
    requires !(x.category.Some? && x.category.value.name != "" && x.category.value.name in counts)
    ensures FiledCounted(pre + [x], names, counts)
  {
    CategoryCountSnoc(pre, x);
  }

  /** What the two loops of `TopCategory` establish. */
  ghost predicate CategoryTally(items: seq<Item>, categories: seq<Category>, names: seq<string>,
                                counts: map<string, nat>) {
    && names == GroupBy(categories, NameKeyOf).keys
    && DistinctKeys(names)
    && (forall k :: k in names <==> exists j :: 0 <= j < |categories| && NameKeyOf(categories[j]) == Some(k))
    && (forall k :: k in counts <==> k in names)
    && (forall k :: k in counts ==> counts[k] == CategoryCount(items, k))
  }

  /** When some record is filed under a category's name, the pick is a listed
      name with a non-zero count, and a category carries it. */
  lemma TopCategoryFound(items: seq<Item>, categories: seq<Category>, names: seq<string>, counts: map<string, nat>)
    requires CategoryTally(items, categories, names, counts)
    requires AnyFiled(items, categories)
    ensures var top := PickTop(names, counts);
            top.count > 0 && top.name in names && top.count == CategoryCount(items, top.name)
            && FindNamed(categories, top.name).Some?
  {
    var a, b :| 0 <= a < |items| && 0 <= b < |categories| && InCategory(categories[b].name)(items[a]);
    var k := categories[b].name;
    assert NameKeyOf(categories[b]) == Some(k);
    FilterHasMember(items, InCategory(k), a);
    assert k in names;
    assert k in counts && counts[k] == CategoryCount(items, k);
    var top := PickTop(names, counts);
    assert top.count > 0 && top.name in names;
    var j :| 0 <= j < |categories| && NameKeyOf(categories[j]) == Some(top.name);
    assert categories[j].name == top.name;
  }

  /** No category's name is used more often than the pick's. */
  lemma TopCategoryIsMost(items: seq<Item>, categories: seq<Category>, names: seq<string>, counts: map<string, nat>)
    requires CategoryTally(items, categories, names, counts)
    ensures forall j :: 0 <= j < |categories| ==> CategoryCount(items, categories[j].name) <= PickTop(names, counts).count
  {
    forall j | 0 <= j < |categories| ensures CategoryCount(items, categories[j].name) <= PickTop(names, counts).count {
      assert NameKeyOf(categories[j]) == Some(categories[j].name);
    }
  }

  /** A category listed before the first one carrying the pick's name has a
      strictly smaller count. */
  lemma TopCategoryTie(items: seq<Item>, categories: seq<Category>, names: seq<string>, counts: map<string, nat>, p: int)
    requires CategoryTally(items, categories, names, counts)
    requires PickTop(names, counts).count > 0
    requires 0 <= p < |categories|
    requires forall q :: 0 <= q <= p ==> categories[q].name != PickTop(names, counts).name
    ensures CategoryCount(items, categories[p].name) < PickTop(names, counts).count
  {
    GroupByKeyOrder(categories, NameKeyOf, p, PickTop(names, counts).name);
  }

  /** When no record is filed under a listed name, every count is zero and the
      pick stays "". */
  lemma NoneFiledNoTop(items: seq<Item>, categories: seq<Category>, names: seq<string>, counts: map<string, nat>)
    requires CategoryTally(items, categories, names, counts)
    requires !AnyFiled(items, categories)
    ensures PickTop(names, counts).name == ""
  {
    forall k | k in counts ensures counts[k] == 0 {
      var j :| 0 <= j < |categories| && NameKeyOf(categories[j]) == Some(k);
      FilterDropsAll(items, InCategory(k));
    }
  }

  /** The three counters: live records ("Total"), pinned records, trashed records. */
  datatype Stats = Stats(total: nat, pinned: nat, trashed: nat)

  /** The counters of the Insights scene, each a count of positions of the
      history: "Total" the live records, "Trashed" the trashed ones (the two
      add up to the size of the history), and "Pinned" the records carrying
      the flag, whether or not they are in the trash. */
  function Counters(items: seq<Item>): (s: Stats)
    ensures s.total == |set i | 0 <= i < |items| && !items[i].isTrashed|
    ensures s.trashed == |set i | 0 <= i < |items| && items[i].isTrashed|
    ensures s.pinned == |set i | 0 <= i < |items| && items[i].pinned|
    ensures s.total + s.trashed == |items|
  {
    FilterPartitionLength(items, IsTrashed, IsLive);
    LiveCounted(items);
    TrashedCounted(items);
    PinnedCounted(items);
    Stats(|Filter(items, IsLive)|, |Filter(items, IsPinned)|, |Filter(items, IsTrashed)|)
  }

  lemma LiveCounted(items: seq<Item>)
    ensures |Filter(items, IsLive)| == |set i | 0 <= i < |items| && !items[i].isTrashed|
  {
    FilterLengthIsPositions(items, IsLive);
    assert Positions(items, IsLive) == set i | 0 <= i < |items| && !items[i].isTrashed;
  }

  lemma TrashedCounted(items: seq<Item>)
    ensures |Filter(items, IsTrashed)| == |set i | 0 <= i < |items| && items[i].isTrashed|
  {
    FilterLengthIsPositions(items, IsTrashed);
    assert Positions(items, IsTrashed) == set i | 0 <= i < |items| && items[i].isTrashed;
  }

  lemma PinnedCounted(items: seq<Item>)
    ensures |Filter(items, IsPinned)| == |set i | 0 <= i < |items| && items[i].pinned|
  {
    FilterLengthIsPositions(items, IsPinned);
    assert Positions(items, IsPinned) == set i | 0 <= i < |items| && items[i].pinned;
  }

  /** Moving records to the trash, or out of it, leaves "Pinned" as it was
      and keeps "Total" and "Trashed" adding up to the same length. */
  lemma FlipTrashKeepsPinned(items: seq<Item>, ids: seq<string>)
    ensures Counters(FlipTrash(items, ids)).pinned == Counters(items).pinned
    ensures Counters(FlipTrash(items, ids)).total + Counters(FlipTrash(items, ids)).trashed
            == Counters(items).total + Counters(items).trashed
  {
    var r := FlipTrash(items, ids);
    assert (set i | 0 <= i < |r| && r[i].pinned) == set i | 0 <= i < |items| && items[i].pinned;
  }
}
