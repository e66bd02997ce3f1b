/** `handleAssignLabel` (src/pages/App/components/AssignLabelModal.tsx): the
    selected record, with the typed label, replaces every stored record that
    has its id. The store write around it is `Handlers.Store.HandleAssignLabel`. */
module AssignLabel {
  import opened Types

  /** The guard `inputLabelValue && clipboardItem`: a non-empty label and a
      selected record. A missing input field reads as "". */
  predicate WillAssign(selected: Option<Item>, input: string) {
    input != "" && selected.Some?
  }

  /** The `map`: every record with the selected id becomes the selected
      snapshot with the new label; the others are kept. */
  function Relabel(items: seq<Item>, selected: Item, input: string): (r: seq<Item>)
    ensures SameIds(items, r)
    ensures forall i :: 0 <= i < |items| && items[i].id == selected.id ==>
              r[i] == selected.(labelText := input)
    ensures forall i :: 0 <= i < |items| && items[i].id != selected.id ==> r[i] == items[i]
    ensures !HasId(items, selected.id) ==> r == items
  {
    seq(|items|, i requires 0 <= i < |items| =>
      if items[i].id == selected.id then selected.(labelText := input) else items[i])
  }

  /** When the snapshot still equals the stored record, assigning a label
      changes the label and nothing else. */
  lemma RelabelFreshSnapshot(items: seq<Item>, selected: Item, input: string)
    requires forall i :: 0 <= i < |items| && items[i].id == selected.id ==> items[i] == selected
    ensures var r := Relabel(items, selected, input);
            forall i :: 0 <= i < |items| ==>
              r[i].(labelText := items[i].labelText) == items[i]
              && (items[i].id == selected.id ==> r[i].labelText == input)
  {
  }

  /** When the stored record moved on after the snapshot was taken (it was
      trashed, filed or restored meanwhile), assigning a label writes the
      snapshot's flags and category back over the newer ones. */
  lemma RelabelStaleSnapshot(items: seq<Item>, selected: Item, input: string, i: int)
    requires 0 <= i < |items| && items[i].id == selected.id
    ensures Relabel(items, selected, input)[i].isTrashed == selected.isTrashed
    ensures Relabel(items, selected, input)[i].category == selected.category
    ensures Relabel(items, selected, input)[i].pinned == selected.pinned
  {
  }

  /** Assigning the same label twice is assigning it once. */
  lemma RelabelIdempotent(items: seq<Item>, selected: Item, input: string)
    ensures Relabel(Relabel(items, selected, input), selected, input) == Relabel(items, selected, input)
  {
  }
}
