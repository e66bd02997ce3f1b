/** The extension's state and the handlers that change it. `chrome.storage.local`
    holds `clipboardHistory` and `categories` (either may never have been
    written); the dashboard keeps a copy of the history (`clipboardItems`),
    of the categories, and the list of checked ids; the background page counts
    the limit notifications it is sent. Each handler is one atomic
    read-transform-write. A handler that reads a missing history and calls
    `map`/`filter` on it throws inside the storage callback; the model then
    changes nothing. */
module Handlers {
  import opened Types
  import opened Seqs
  import opened Text
  import opened Capture
  import opened History
  import opened ListItem
  import opened GroupedItems
  import opened Trash
  import opened ClearHistory
  import opened AssignLabel

  class Store {
    /** `clipboardHistory` in storage. */
    var history: Option<seq<Item>>
    /** `categories` in storage. */
    var categories: Option<seq<Category>>
    /** The dashboard's `clipboardItems`. */
    var view: seq<Item>
    /** The dashboard's `categories`. */
    var categoryView: seq<Category>
    /** The dashboard's `checkedItems`. */
    var checked: seq<string>
    /** `showNotification` messages sent so far. */
    var notifications: nat

    /** A store as found on start-up, and a dashboard that has just loaded it
        (`if (clipboardHistory) setClipboardItems(...)`). */
    constructor (storedHistory: Option<seq<Item>>, storedCategories: Option<seq<Category>>)
      ensures history == storedHistory && categories == storedCategories
      ensures view == StoredOrEmpty(storedHistory)
      ensures categoryView == (if storedCategories.Some? then storedCategories.value else [])
      ensures checked == [] && notifications == 0
    {
      history := storedHistory;
      categories := storedCategories;
      view := StoredOrEmpty(storedHistory);
      categoryView := if storedCategories.Some? then storedCategories.value else [];
      checked := [];
      notifications := 0;
    }

    /** What the handlers keep: stored ids are unique and stored category
        names are distinct after trimming and lower-casing. */
    ghost predicate Valid()
      reads this
    {
      && (history.Some? ==> UniqueIds(history.value))
      && (categories.Some? ==> NamesDistinct(categories.value))
    }

    /** `saveCopiedItem`: the new record goes in front of the stored history
        (a missing one counts as empty); past the cap nothing is written and
        one notification is sent. */
    method SaveCopiedItem(data: CopiedData, id: string, now: string, max: int)
      modifies this
      ensures var rec := NewRecord(data, id, now);
              var prior := StoredOrEmpty(old(history));
              if |prior| + 1 <= max then
                history == Some([rec] + prior) && notifications == old(notifications)
              else
                history == old(history) && notifications == old(notifications) + 1
      ensures categories == old(categories) && view == old(view)
      ensures categoryView == old(categoryView) && checked == old(checked)
      ensures old(Valid()) && !HasId(StoredOrEmpty(old(history)), id) ==> Valid()
    {
      var newCopiedItem := NewRecord(data, id, now);
      var clipboardHistory := StoredOrEmpty(history);
      if Valid() && !HasId(clipboardHistory, id) {
        SaveKeepsIdsUnique(history, newCopiedItem, max);
      }
      clipboardHistory := [newCopiedItem] + clipboardHistory;
      if |clipboardHistory| > max {
        notifications := notifications + 1;
        return;
      }
      history := Some(clipboardHistory);
    }

    /** `handleCopyEvent`: saves exactly when the data could be gathered and
        the copied text is not empty, under the default cap; otherwise nothing
        changes. */
    method HandleCopyEvent(data: Option<CopiedData>, id: string, now: string)
      modifies this
      ensures !WillSave(data) ==>
                history == old(history) && notifications == old(notifications)
      ensures WillSave(data) ==>
                var rec := NewRecord(data.value, id, now);
                var prior := StoredOrEmpty(old(history));
                if |prior| + 1 <= DefaultMaxItems then
                  history == Some([rec] + prior) && notifications == old(notifications)
                else
                  history == old(history) && notifications == old(notifications) + 1
      ensures categories == old(categories) && view == old(view)
      ensures categoryView == old(categoryView) && checked == old(checked)
      ensures old(Valid()) && !HasId(StoredOrEmpty(old(history)), id) ==> Valid()
    {
      if data.Some? && data.value.copiedText != "" {
        SaveCopiedItem(data.value, id, now, DefaultMaxItems);
      }
    }

    /** `handleCreateCategory`: a name equal to a stored one after trimming
        and lower-casing is refused with an alert; any other name is appended,
        trimmed, and shown. A missing category list makes `some` throw. */
    method HandleCreateCategory(name: string, id: string) returns (alerted: bool)
      modifies this
      ensures old(categories).None? ==> !alerted && categories == old(categories) && categoryView == old(categoryView)
      ensures old(categories).Some? ==>
                (alerted <==> NameTaken(old(categories).value, name))
                && (alerted ==> categories == old(categories) && categoryView == old(categoryView))
                && (!alerted ==> categories == Some(old(categories).value + [Category(id, Trim(name))])
                                 && categoryView == categories.value)
      ensures history == old(history) && view == old(view)
      ensures checked == old(checked) && notifications == old(notifications)
      ensures old(Valid()) ==> Valid()
    {
      alerted := false;
      if categories.None? {
        return;
      }
      var cats := categories.value;
      if Valid() {
        CreateKeepsNamesDistinct(cats, name, id);
      }
      match CreateCategory(cats, name, id)
      case None =>
        alerted := true;
      case Some(updated) =>
        categories := Some(updated);
        categoryView := updated;
    }

    /** `ensureCategoryExists`: the stored category with the same normalised
        name, or a new one appended to the stored list (a missing or
        non-array list counts as empty). The dashboard's copy is not updated. */
    method EnsureCategoryExists(name: string, id: string) returns (c: Category)
      modifies this
      ensures var e := EnsureCategory(old(categories), name, id);
              c == e.category
              && categories == (if e.write.Some? then e.write else old(categories))
      ensures history == old(history) && view == old(view) && categoryView == old(categoryView)
      ensures checked == old(checked) && notifications == old(notifications)
      ensures old(Valid()) ==> Valid()
    {
      var e := EnsureCategory(categories, name, id);
      if Valid() {
        EnsureKeepsNamesDistinct(categories, name, id);
      }
      c := e.category;
      if e.write.Some? {
        categories := e.write;
      }
    }

    /** `handleSaveClipboardItemToCategory`: ensures the category, then files
        the record with the id under it, in storage and on screen. */
    method HandleSaveToCategory(itemId: string, name: string, categoryId: string)
      modifies this
      ensures var e := EnsureCategory(old(categories), name, categoryId);
              && categories == (if e.write.Some? then e.write else old(categories))
              && (old(history).Some? ==>
                    history == Some(SetCategory(old(history).value, itemId, e.category))
                    && view == history.value)
              && (old(history).None? ==> history == old(history) && view == old(view))
      ensures categoryView == old(categoryView)
      ensures checked == old(checked) && notifications == old(notifications)
      ensures old(Valid()) ==> Valid()
    {
      var category := EnsureCategoryExists(name, categoryId);
      if history.Some? {
        var updatedItems := SetCategory(history.value, itemId, category);
        if Valid() {
          SetCategoryKeepsIdsUnique(history.value, itemId, category);
        }
        history := Some(updatedItems);
        view := updatedItems;
      }
    }

    /** `handleCheck`. */
    method HandleCheck(id: string)
      modifies this
      ensures checked == ToggleChecked(old(checked), id)
      ensures id in checked <==> id !in old(checked)
      ensures history == old(history) && categories == old(categories) && view == old(view)
      ensures categoryView == old(categoryView) && notifications == old(notifications)
    {
      checked := ToggleChecked(checked, id);
    }

    /** `handleMoveToTrash` (both the list and the grouped variant): flips the
        checked records in and out of the trash and clears the selection. */
    method HandleMoveToTrash(ids: seq<string>)
      modifies this
      ensures old(history).Some? ==>
                history == Some(FlipTrash(old(history).value, ids)) && view == history.value && checked == []
      ensures old(history).None? ==> history == old(history) && view == old(view) && checked == old(checked)
      ensures categories == old(categories) && categoryView == old(categoryView)
      ensures notifications == old(notifications)
      ensures old(Valid()) ==> Valid()
    {
      if history.Some? {
        var updatedItems := FlipTrash(history.value, ids);
        if Valid() {
          SameIdsUnique(history.value, updatedItems);
        }
        history := Some(updatedItems);
        view := updatedItems;
        checked := [];
      }
    }

    /** `handleUnsaveClipboard` of a list row: uncategorises and unpins. */
    method HandleUnsave(id: string)
      modifies this
      ensures old(history).Some? ==>
                history == Some(UnsaveAndUnpin(old(history).value, id)) && view == history.value
      ensures old(history).None? ==> history == old(history) && view == old(view)
      ensures categories == old(categories) && categoryView == old(categoryView)
      ensures checked == old(checked) && notifications == old(notifications)
      ensures old(Valid()) ==> Valid()
    {
      if history.Some? {
        var updatedItems := UnsaveAndUnpin(history.value, id);
        if Valid() {
          SameIdsUnique(history.value, updatedItems);
        }
        history := Some(updatedItems);
        view := updatedItems;
      }
    }

    /** `handleUnsaveClipboard` of a grouped row: uncategorises, keeps the pin. */
    method HandleUnsaveFromGroup(id: string)
      modifies this
      ensures old(history).Some? ==>
                history == Some(UnsaveKeepPin(old(history).value, id)) && view == history.value
      ensures old(history).None? ==> history == old(history) && view == old(view)
      ensures categories == old(categories) && categoryView == old(categoryView)
      ensures checked == old(checked) && notifications == old(notifications)
      ensures old(Valid()) ==> Valid()
    {
      if history.Some? {
        var updatedItems := UnsaveKeepPin(history.value, id);
        if Valid() {
          SameIdsUnique(history.value, updatedItems);
        }
        history := Some(updatedItems);
        view := updatedItems;
      }
    }

    /** `handleRestoreClipboard`. */
    method HandleRestore(id: string)
      modifies this
      ensures old(history).Some? ==>
                history == Some(Restore(old(history).value, id)) && view == history.value
      ensures old(history).None? ==> history == old(history) && view == old(view)
      ensures categories == old(categories) && categoryView == old(categoryView)
      ensures checked == old(checked) && notifications == old(notifications)
      ensures old(Valid()) ==> Valid()
    {
      if history.Some? {
        var updatedItems := Restore(history.value, id);
        if Valid() {
          SameIdsUnique(history.value, updatedItems);
        }
        history := Some(updatedItems);
        view := updatedItems;
      }
    }

    /** `handleDeleteItem`: removes the record and clears the selection. */
    method HandleDelete(id: string)
      modifies this
      ensures old(history).Some? ==>
                history == Some(Delete(old(history).value, id)) && view == history.value && checked == []
      ensures old(history).None? ==> history == old(history) && view == old(view) && checked == old(checked)
      ensures categories == old(categories) && categoryView == old(categoryView)
      ensures notifications == old(notifications)
      ensures old(Valid()) ==> Valid()
    {
      if history.Some? {
        var updatedItems := Delete(history.value, id);
        if Valid() {
          DeleteKeepsIdsUnique(history.value, id);
        }
        history := Some(updatedItems);
        view := updatedItems;
        checked := [];
      }
    }

    /** `handleEmptyTrash`. */
    method HandleEmptyTrash()
      modifies this
      ensures old(history).Some? ==>
                history == Some(EmptyTrash(old(history).value)) && view == history.value
      ensures old(history).None? ==> history == old(history) && view == old(view)
      ensures categories == old(categories) && categoryView == old(categoryView)
      ensures checked == old(checked) && notifications == old(notifications)
      ensures old(Valid()) ==> Valid()
    {
      if history.Some? {
        var updatedItems := EmptyTrash(history.value);
        if Valid() {
          FilterDistinctBy(history.value, IsLive, IdOf);
        }
        history := Some(updatedItems);
        view := updatedItems;
      }
    }

    /** `handleConfirm` of the clear-history dialog. It transforms the
        dashboard's copy of the history, not the stored one, and writes the
        result over the stored history. */
    method HandleConfirmClear(range: TimeRange, now: int, moveToTrash: bool, excludePinned: bool,
                              parse: string -> Option<int>)
      modifies this
      ensures exists start: Option<int> ::
                && (start.None? <==> range == AllTime)
                && (range == LastHour ==> start == Some(now - 3_600_000))
                && (range == LastDay ==> start == Some(now - 86_400_000))
                && (range == LastWeek ==> start == Some(now - 604_800_000))
                && (range == LastMonth ==> start == Some(now - 2_592_000_000))
                && history == Some(Clear(old(view), start, moveToTrash, excludePinned, parse))
      ensures view == history.value
      ensures categories == old(categories) && categoryView == old(categoryView)
      ensures checked == old(checked) && notifications == old(notifications)
    {
      var timeRangeStart := RangeStart(range, now);
      var finalItems := Clear(view, timeRangeStart, moveToTrash, excludePinned, parse);
      history := Some(finalItems);
      view := finalItems;
    }

    /** `handleAssignLabel`: with a non-empty label and a selected record,
        every stored record with the selected id becomes the selected
        snapshot carrying the new label. */
    method HandleAssignLabel(selected: Option<Item>, input: string)
      modifies this
      ensures WillAssign(selected, input) && old(history).Some? ==>
                history == Some(Relabel(old(history).value, selected.value, input)) && view == history.value
      ensures !(WillAssign(selected, input) && old(history).Some?) ==>
                history == old(history) && view == old(view)
      ensures categories == old(categories) && categoryView == old(categoryView)
      ensures checked == old(checked) && notifications == old(notifications)
      ensures old(Valid()) ==> Valid()
    {
      if input != "" && selected.Some? && history.Some? {
        var updatedItems := Relabel(history.value, selected.value, input);
        if Valid() {
          SameIdsUnique(history.value, updatedItems);
        }
        history := Some(updatedItems);
        view := updatedItems;
      }
    }
  }
}
