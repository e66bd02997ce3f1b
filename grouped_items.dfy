/** The grouped list of the History scene
    (src/pages/App/components/GroupedItems.tsx): its own unpin handler and
    what it renders for a grouping. Its checkbox toggle and trash flip are
    the ones of module ListItem. */
module GroupedItems {
  import opened Types
  import opened Seqs
  import opened Grouping

  /** `handleUnsaveClipboard` (grouped row): the record with the id loses its
      category but keeps its `pinned` flag; nothing else changes. */
  function UnsaveKeepPin(items: seq<Item>, id: string): (r: seq<Item>)
    ensures SameIds(items, r)
    ensures forall i :: 0 <= i < |items| && items[i].id == id ==>
              r[i].category.None? && r[i].pinned == items[i].pinned
              && r[i].(category := items[i].category) == items[i]
    ensures forall i :: 0 <= i < |items| && items[i].id != id ==> r[i] == items[i]
    ensures !HasId(items, id) ==> r == items
  {
    seq(|items|, i requires 0 <= i < |items| =>
      if items[i].id == id then items[i].(category := None) else items[i])
  }

  /** One list per group: its header key and the rows it shows. */
  datatype Section = Section(key: string, rows: seq<Item>)

  /** The empty state, or one section per key. */
  datatype GroupsView = EmptyGroups | GroupLists(sections: seq<Section>)

  /** The array under `k`, or nothing. */
  function Members(g: Groups<Item>, k: string): seq<Item> {
    if k in g.members then g.members[k] else []
  }

  /** What the component renders: the empty state when the record has no
      keys, otherwise a section per key, in key order, whose rows are the
      group's records that are not in the trash. */
  function Render(g: Groups<Item>): (v: GroupsView)
    ensures v.EmptyGroups? <==> g.keys == []
    ensures v.GroupLists? ==>
              |v.sections| == |g.keys|
              && forall i :: 0 <= i < |g.keys| ==>
                   v.sections[i].key == g.keys[i]
                   && (forall x :: x in v.sections[i].rows <==> x in Members(g, g.keys[i]) && !x.isTrashed)
                   && (forall x :: multiset(v.sections[i].rows)[x] ==
                                  if !x.isTrashed then multiset(Members(g, g.keys[i]))[x] else 0)
  {
    forall k { FilterCount(Members(g, k), IsLive); }
    if g.keys == [] then EmptyGroups
    else GroupLists(seq(|g.keys|, i requires 0 <= i < |g.keys| =>
                          Section(g.keys[i], Filter(Members(g, g.keys[i]), IsLive))))
  }

  /** Rows keep the order the group has. */
  lemma RenderKeepsOrder(g: Groups<Item>, i: nat)
    requires Render(g).GroupLists? && i < |g.keys|
    ensures IsSubsequence(Render(g).sections[i].rows, Members(g, g.keys[i]))
  {
    FilterIsSubsequence(Members(g, g.keys[i]), IsLive);
  }

  /** Sections follow the order in which their keys first occur: the key of
      the record at `p` comes before every key first met after `p`. */
  lemma RenderSectionOrder(items: seq<Item>, keyOf: Item -> Option<string>, p: int, k: string)
    requires 0 <= p < |items| && keyOf(items[p]).Some?
    requires k in GroupBy(items, keyOf).keys
    requires forall q :: 0 <= q <= p ==> keyOf(items[q]) != Some(k)
    ensures Render(GroupBy(items, keyOf)).GroupLists?
    ensures var s := Render(GroupBy(items, keyOf)).sections;
            exists a, b :: 0 <= a < b < |s| && s[a].key == keyOf(items[p]).value && s[b].key == k
  {
    GroupByKeyOrder(items, keyOf, p, k);
  }

  /** A group whose records are all in the trash still gets its header, with
      no rows under it: grouping happens before the trash is filtered out. */
  lemma AllTrashedGroupStillListed(g: Groups<Item>, i: nat)
    requires i < |g.keys|
    requires forall x :: x in Members(g, g.keys[i]) ==> x.isTrashed
    ensures Render(g).GroupLists?
    ensures Render(g).sections[i] == Section(g.keys[i], [])
  {
    var m := Members(g, g.keys[i]);
    assert forall j :: 0 <= j < |m| ==> m[j] in m;
    FilterDropsAll(m, IsLive);
  }
}
