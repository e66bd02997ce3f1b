/** The Trash scene (src/pages/App/scenes/Trash.tsx): the trashed view and
    emptying the trash. */
module Trash {
  import opened Types
  import opened Seqs

  /** The trashed records, every copy of each, in stored order. */
  function TrashedItems(items: seq<Item>): (r: seq<Item>)
    ensures forall x :: x in r <==> x in items && x.isTrashed
    ensures forall x :: multiset(r)[x] == if x.isTrashed then multiset(items)[x] else 0
  {
    FilterCount(items, IsTrashed);
    Filter(items, IsTrashed)
  }

  /** The empty state, or the list of trashed rows. */
  datatype TrashView = TrashEmpty | TrashList(rows: seq<Item>)

  /** What the scene renders: "Trash is empty" when nothing is trashed,
      otherwise every stored record that is trashed, in order. */
  function RenderTrash(items: seq<Item>): (v: TrashView)
    ensures v.TrashEmpty? <==> forall i :: 0 <= i < |items| ==> !items[i].isTrashed
    ensures v.TrashList? ==> forall x :: x in v.rows <==> x in items && x.isTrashed
    ensures v.TrashList? ==>
              forall x :: multiset(v.rows)[x] == if x.isTrashed then multiset(items)[x] else 0
  {
    FilterCount(items, IsTrashed);
    var trashed := TrashedItems(items);
    if |trashed| == 0 then
      assert forall i :: 0 <= i < |items| ==> items[i] in items;
      TrashEmpty
    else
      assert trashed[0] in trashed;
      TrashList(Filter(items, IsTrashed))
  }

  /** The trash list keeps stored order. */
  lemma TrashViewKeepsOrder(items: seq<Item>)
    ensures IsSubsequence(TrashedItems(items), items)
  {
    FilterIsSubsequence(items, IsTrashed);
  }

  /** The rows of the trash list keep stored order. */
  lemma RenderTrashKeepsOrder(items: seq<Item>)
    requires RenderTrash(items).TrashList?
    ensures IsSubsequence(RenderTrash(items).rows, items)
  {
    FilterIsSubsequence(items, IsTrashed);
  }

  /** `handleEmptyTrash`: the trashed records are dropped; every other record
      stays, and the lengths add up. */
  function EmptyTrash(items: seq<Item>): (r: seq<Item>)
    ensures forall x :: x in r <==> x in items && !x.isTrashed
    ensures |r| + |TrashedItems(items)| == |items|
  {
    FilterPartitionLength(items, IsLive, IsTrashed);
    Filter(items, IsLive)
  }

  /** Survivors keep their order. */
  lemma EmptyTrashKeepsOrder(items: seq<Item>)
    ensures IsSubsequence(EmptyTrash(items), items)
  {
    FilterIsSubsequence(items, IsLive);
  }

  /** Emptying the trash twice is emptying it once. */
  lemma EmptyTrashIdempotent(items: seq<Item>)
    ensures EmptyTrash(EmptyTrash(items)) == EmptyTrash(items)
  {
    FilterIdempotent(items, IsLive);
  }

  /** After emptying, the trash view shows its empty state. */
  lemma EmptiedTrashShowsEmptyState(items: seq<Item>)
    ensures RenderTrash(EmptyTrash(items)) == TrashEmpty
  {
    var r := EmptyTrash(items);
    forall i | 0 <= i < |r| ensures !r[i].isTrashed {
      assert r[i] in r;
    }
  }
}
