/** The list-row handlers of the dashboard (src/pages/App/components/ListItem.tsx):
    the checked-ids toggle and the record transforms each handler writes back.
    The same toggle and trash flip are repeated verbatim in GroupedItems.tsx. */
module ListItem {
  import opened Types
  import opened Seqs

  /** The id differs from `id`. */
  function IsNot(id: string): string -> bool {
    x => x != id
  }

  /** `handleCheck`: an id already checked is removed (every occurrence of
      it, every other id keeping its count); any other id is appended at the end. */
  function ToggleChecked(checked: seq<string>, id: string): (r: seq<string>)
    ensures id in r <==> id !in checked
    ensures forall x :: x != id ==> (x in r <==> x in checked)
    ensures id in checked ==> forall x :: multiset(r)[x] == if x == id then 0 else multiset(checked)[x]
    ensures id !in checked ==> r == checked + [id]
  {
    FilterCount(checked, IsNot(id));
    if id in checked then Filter(checked, IsNot(id)) else checked + [id]
  }

  /** Unchecking keeps the other checked ids in their order. */
  lemma ToggleUncheckKeepsOrder(checked: seq<string>, id: string)
    requires id in checked
    ensures IsSubsequence(ToggleChecked(checked, id), checked)
  {
    FilterIsSubsequence(checked, IsNot(id));
  }

  /** Checking and unchecking an id restores the list it started from. */
  lemma ToggleTwiceRestores(checked: seq<string>, id: string)
    requires id !in checked
    ensures ToggleChecked(ToggleChecked(checked, id), id) == checked
  {
    FilterAppend(checked, [id], IsNot(id));
    forall i | 0 <= i < |checked| ensures IsNot(id)(checked[i]) {
      assert checked[i] in checked;
    }
    FilterKeepsAll(checked, IsNot(id));
  }

  /** `handleMoveToTrash`: flips `isTrashed` on every record whose id is in
      `ids`; records keep their position and every other field. */
  function FlipTrash(items: seq<Item>, ids: seq<string>): (r: seq<Item>)
    ensures SameIds(items, r)
    ensures forall i :: 0 <= i < |items| ==>
              r[i].isTrashed == (items[i].isTrashed != (items[i].id in ids))
              && r[i].(isTrashed := items[i].isTrashed) == items[i]
    ensures forall i :: 0 <= i < |items| && items[i].id !in ids ==> r[i] == items[i]
  {
    seq(|items|, i requires 0 <= i < |items| =>
      if items[i].id in ids then items[i].(isTrashed := !items[i].isTrashed) else items[i])
  }

  /** Moving the same ids to the trash twice restores the list. */
  lemma FlipTrashInvolutive(items: seq<Item>, ids: seq<string>)
    ensures FlipTrash(FlipTrash(items, ids), ids) == items
  {
    var once := FlipTrash(items, ids);
    var twice := FlipTrash(once, ids);
    forall i | 0 <= i < |items| ensures twice[i] == items[i] {
      assert once[i].id == items[i].id;
    }
  }

  /** `handleUnsaveClipboard` (list row): the record with the id loses its
      category and its pin; nothing else changes. */
  function UnsaveAndUnpin(items: seq<Item>, id: string): (r: seq<Item>)
    ensures SameIds(items, r)
    ensures forall i :: 0 <= i < |items| && items[i].id == id ==>
              r[i].category.None? && !r[i].pinned
              && r[i].(category := items[i].category, pinned := items[i].pinned) == items[i]
    ensures forall i :: 0 <= i < |items| && items[i].id != id ==> r[i] == items[i]
    ensures !HasId(items, id) ==> r == items
  {
    seq(|items|, i requires 0 <= i < |items| =>
      if items[i].id == id then items[i].(category := None, pinned := false) else items[i])
  }

  /** `handleRestoreClipboard`: the record with the id leaves the trash;
      nothing else changes. */
  function Restore(items: seq<Item>, id: string): (r: seq<Item>)
    ensures SameIds(items, r)
    ensures forall i :: 0 <= i < |items| && items[i].id == id ==>
              !r[i].isTrashed && r[i].(isTrashed := items[i].isTrashed) == items[i]
    ensures forall i :: 0 <= i < |items| && items[i].id != id ==> r[i] == items[i]
    ensures !HasId(items, id) ==> r == items
  {
    seq(|items|, i requires 0 <= i < |items| =>
      if items[i].id == id then items[i].(isTrashed := false) else items[i])
  }

  /** Restoring twice is restoring once. */
  lemma RestoreIdempotent(items: seq<Item>, id: string)
    ensures Restore(Restore(items, id), id) == Restore(items, id)
  {
  }

  /** Trashing one record and restoring it gives back exactly the record it
      was: only `isTrashed` moved, and it moved back. */
  lemma TrashThenRestore(items: seq<Item>, id: string)
    requires forall i :: 0 <= i < |items| && items[i].id == id ==> !items[i].isTrashed
    ensures Restore(FlipTrash(items, [id]), id) == items
  {
    var r := Restore(FlipTrash(items, [id]), id);
    forall i | 0 <= i < |items| ensures r[i] == items[i] {
    }
  }

  /** The record's id differs from `id`. */
  function IdIsNot(id: string): Item -> bool {
    (x: Item) => x.id != id
  }

  /** `handleDeleteItem`: every record with the id is removed; every copy
      of every other record stays, in order. */
  function Delete(items: seq<Item>, id: string): (r: seq<Item>)
    ensures forall x :: x in r <==> x in items && x.id != id
    ensures forall x :: multiset(r)[x] == if x.id != id then multiset(items)[x] else 0
    ensures |r| <= |items|
    ensures !HasId(items, id) ==> r == items
  {
    FilterCount(items, IdIsNot(id));
    if !HasId(items, id) then
      FilterKeepsAll(items, IdIsNot(id));
      Filter(items, IdIsNot(id))
    else
      Filter(items, IdIsNot(id))
  }

  /** Deleting cannot make two ids collide. */
  lemma DeleteKeepsIdsUnique(items: seq<Item>, id: string)
    requires UniqueIds(items)
    ensures UniqueIds(Delete(items, id))
  {
    FilterDistinctBy(items, IdIsNot(id), IdOf);
  }

  /** What remains after a delete is in its original order. */
  lemma DeleteKeepsOrder(items: seq<Item>, id: string)
    ensures IsSubsequence(Delete(items, id), items)
  {
    FilterIsSubsequence(items, IdIsNot(id));
  }
}
