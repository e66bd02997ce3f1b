# clipboard-plus, modelled in Dafny

clipboard-plus is a browser extension. It records every text copied on a web
page into a history kept in `chrome.storage.local`. It shows the newest
records in a toolbar popup. It also offers a dashboard where records can be
filed under user-made categories, labelled, moved to a trash, restored,
deleted, cleared by time range, and summarised.

This project models the extension's history logic: the records, the
categories, the checked-ids selection, and every handler that reads the
stored history, transforms it and writes it back. It also models the views
derived from the history: groupings, the trash view, insights, category
search, the popup list and text truncation.

Layout, one module per source file:

- `types.dfy` (Types): records, sources and categories.
- `text.dfy` (Text): `trim` and `toLowerCase`.
- `seqs.dfy` (Seqs): `filter` and `find` over sequences, and the subsequence order.
- `grouping.dfy` (Grouping): the `reduce`-into-a-record idiom.
- `capture.dfy` (Capture): the record a copy creates, and the item cap.
- `history.dfy` (History): the two groupings, category creation and lookup, filing a record.
- `list_item.dfy`, `grouped_items.dfy`, `trash.dfy`, `clear_history.dfy`, `assign_label.dfy`: the record transforms of those components.
- `insights.dfy` (Insights): top source, top category and the counters.
- `save_modal.dfy` (SaveModal): category search, the "General" row, and the Save target of each row.
- `popup.dfy` (Popup): the ten-record window and its date separators.
- `truncate_text.dfy` (TruncateText): `truncateText`.
- `store.dfy` (Handlers): class `Store`.
  - It holds the stored `clipboardHistory` and `categories`, each of which may be missing.
  - It holds the dashboard's copies of both, the checked ids, and a count of limit notifications.
  - Each handler is a method doing one atomic read, transform and write. Each states the whole new state.
  - The handlers that write the stored lists keep `Valid()`: stored ids are unique, and stored category names stay distinct after trimming and lower-casing. `HandleConfirmClear` is the exception (see Left out).

Loops of the source are methods with loop invariants:

- `Grouping.Group`: the grouping `reduce`.
- `Insights.CountSources`, `Insights.ListNames` and `Insights.CountFiled`: the counting loops.
- `Popup.RenderList`: the separator loop.

Each is proved against a recursive specification function. The facts the source promises are then proved about that function.

Where the code and its description disagree, the model follows the code:

- **Save button.** Each row's Save button in the "Save to category" dialog saves to the row's own name. The inner button passes `'General'`, but the function it is given ignores its arguments (`SaveModal.RowFor`).
- **Filing does not pin.** Filing a record under a category leaves `pinned` as it was (`History.SetCategory`).
- **"Exclude pinned".** The clear-history option spares records that have a category. It does not look at the `pinned` flag (`ClearHistory.AffectedBy`).
- **"Last 4 weeks".** This option is 30 days (2,592,000,000 ms) back from now (`ClearHistory.RangeStart`).
- **Source fields.** Captured records write the page address as `url`, although the `Source` type declares `href`. Both are optional fields of `Types.Source`.
- **Popup icon.** The popup reads the legacy `website` field. Records captured by the current code have none, so they show no icon (`Popup.CapturedRecordShowsNoIcon`).
- **Full history.** A full history is frozen: past the cap, every copy sends a notification and nothing is stored. No old record is evicted (`Capture.FullHistoryRefusesCopies`).

## Model

| member | source | states |
|---|---|---|
| Types.SameIdsUnique | src/pages/App/components/ListItem.tsx:65-69 | a `map` that keeps the id at every position keeps ids unique |
| Text.TrimStartCutsOnlySpace | src/pages/App/scenes/History.tsx:89 | trimming the start keeps a suffix of the input, and every character cut off is white space |
| Text.TrimEndCutsOnlySpace | src/pages/App/scenes/History.tsx:89 | trimming the end keeps a prefix of the input, and every character cut off is white space |
| Text.TrimCutsOnlySpace | src/pages/App/scenes/History.tsx:89 | `trim` keeps one contiguous stretch of the input, with only white space before and after it |
| Text.TrimHasNoOuterSpace | src/pages/App/scenes/History.tsx:104 | a trimmed name neither starts nor ends with white space |
| Text.TrimIdempotent | src/pages/App/scenes/History.tsx:104 | trimming a trimmed name changes nothing |
| Text.ToLower | src/pages/App/components/SaveClipboardModal.tsx:55 | same length, each character lower-cased |
| Text.ToLowerIdempotent | src/pages/App/scenes/History.tsx:94 | lower-casing twice is lower-casing once |
| Text.NormaliseTrim | src/pages/App/scenes/History.tsx:94 | a stored trimmed name compares equal to the name as typed |
| Grouping.Group | src/pages/App/scenes/History.tsx:13-23 | the `reduce` loop yields the left-to-right reduction `GroupBy`: well-formed record, a key for exactly the keys that occur, the array under each key is the elements with that key in input order, sizes add up to the keyed elements |
| Grouping.GroupByWellFormed | src/pages/App/scenes/History.tsx:16-20 | keys are distinct, key list and domain agree, no array is empty |
| Grouping.GroupByKeys | src/pages/App/scenes/History.tsx:16-18 | a key is present iff some element carries it |
| Grouping.GroupByMembers | src/pages/App/scenes/History.tsx:20 | the array under `k` is the input filtered to key `k`, in order |
| Grouping.GroupBySizes | src/pages/App/scenes/History.tsx:13-23 | every keyed element is in exactly one array: sizes sum to their number |
| Grouping.GroupByKeyOrder | src/pages/App/scenes/History.tsx:16-18 | keys are ordered by first occurrence |
| History.DateKey | src/pages/App/scenes/History.tsx:14 | the key is the prefix of the timestamp before its first 'T' |
| History.GroupItemsByDate | src/pages/App/scenes/History.tsx:12-24 | the reduction `GroupBy` by date key, so keys are in first-seen order; every record lands in its date's group, groups hold only their date, in input order, sizes sum to the input length |
| History.DateGroupsCover | src/pages/App/scenes/History.tsx:14-20 | each record is in its own date's group and no other date's |
| History.GroupItemsByCategory | src/pages/App/scenes/History.tsx:26-42 | the reduction `GroupBy` by category name, so keys are in first-seen order; only records with a non-empty category name are grouped, by that name, in input order; no key is empty |
| History.FindByKey | src/pages/App/scenes/History.tsx:144-146 | `find`: none iff no category matches, otherwise the first match |
| History.CreateCategory | src/pages/App/scenes/History.tsx:88-107 | a name taken after trim and lower-case is refused; otherwise exactly one category with the trimmed name is appended |
| History.AppendKeepsNamesDistinct | src/pages/App/scenes/History.tsx:102-107 | appending an untaken name keeps normalised names distinct |
| History.CreateKeepsNamesDistinct | src/pages/App/scenes/History.tsx:92-107 | creation keeps normalised names distinct |
| History.EnsureCategory | src/pages/App/scenes/History.tsx:137-159 | a missing list counts as empty; the first category whose normalised name matches is returned without a write; otherwise a trimmed-name category is created, appended and returned |
| History.EnsureReturnsFirstMatch | src/pages/App/scenes/History.tsx:144-146 | on a taken name the result is the first stored category with that normalised name, also when several match |
| History.EnsureTwiceCreatesOnce | src/pages/App/scenes/History.tsx:144-159 | ensuring case- or space-variant names twice creates one category and the second call writes nothing |
| History.FindAppended | src/pages/App/scenes/History.tsx:144-146 | lookup after an append finds the appended category when nothing before matched |
| History.EnsureKeepsNamesDistinct | src/pages/App/scenes/History.tsx:148-156 | ensuring keeps normalised names distinct |
| History.SetCategory | src/pages/App/scenes/History.tsx:122-124 | records with the id get the category and nothing else (pinned included) changes; other records and length unchanged |
| ListItem.ToggleChecked | src/pages/App/components/ListItem.tsx:44-52 | the id is checked afterwards iff it was not before; unchecking removes every copy of the id and keeps every other id with its count; a new id is appended at the end |
| ListItem.ToggleUncheckKeepsOrder | src/pages/App/components/ListItem.tsx:46-47 | unchecking keeps the other checked ids in their order |
| ListItem.ToggleTwiceRestores | src/pages/App/components/ListItem.tsx:44-52 | checking and unchecking an id restores the list |
| ListItem.FlipTrash | src/pages/App/components/ListItem.tsx:65-69 | `isTrashed` flips exactly on records whose id is listed; everything else kept |
| ListItem.FlipTrashInvolutive | src/pages/App/components/ListItem.tsx:63-75 | moving the same ids twice restores the list |
| ListItem.UnsaveAndUnpin | src/pages/App/components/ListItem.tsx:80-82 | matching record loses category and pin, nothing else changes; unknown id changes nothing |
| ListItem.Restore | src/pages/App/components/ListItem.tsx:92-94 | matching record leaves the trash, nothing else changes |
| ListItem.RestoreIdempotent | src/pages/App/components/ListItem.tsx:90-95 | restoring twice is restoring once |
| ListItem.TrashThenRestore | src/pages/App/components/ListItem.tsx:90-95 | trashing a live record and restoring it gives back the same list |
| ListItem.Delete | src/pages/App/components/ListItem.tsx:104-106 | exactly the records with the id are removed; every copy of every other record stays |
| ListItem.DeleteKeepsOrder | src/pages/App/components/ListItem.tsx:104-106 | survivors keep their order |
| GroupedItems.UnsaveKeepPin | src/pages/App/components/GroupedItems.tsx:104-106 | matching record loses its category but keeps `pinned`; nothing else changes |
| GroupedItems.Render | src/pages/App/components/GroupedItems.tsx:119-162 | empty state iff no key; otherwise one section per key, in key order, showing every copy of that group's records that are not trashed |
| GroupedItems.RenderSectionOrder | src/pages/App/components/GroupedItems.tsx:146 | sections of a grouping come in the order their keys first occur in the records |
| GroupedItems.RenderKeepsOrder | src/pages/App/components/GroupedItems.tsx:160-162 | rows keep the group's order |
| GroupedItems.AllTrashedGroupStillListed | src/pages/App/components/GroupedItems.tsx:146-162 | a group whose records are all trashed still shows its header with no rows |
| Trash.TrashedItems | src/pages/App/scenes/Trash.tsx:16-20 | the view holds exactly the trashed records, every copy of each |
| Trash.TrashViewKeepsOrder | src/pages/App/scenes/Trash.tsx:17 | in stored order |
| Trash.RenderTrash | src/pages/App/scenes/Trash.tsx:40-50 | empty state iff nothing is trashed; otherwise the trashed records, every copy of each |
| Trash.RenderTrashKeepsOrder | src/pages/App/scenes/Trash.tsx:40-50 | the trash rows are in stored order |
| Trash.EmptyTrash | src/pages/App/scenes/Trash.tsx:28-30 | exactly the live records survive; survivors plus trashed make the original length |
| Trash.EmptyTrashKeepsOrder | src/pages/App/scenes/Trash.tsx:28-30 | survivors keep their order |
| Trash.EmptyTrashIdempotent | src/pages/App/scenes/Trash.tsx:28-30 | emptying twice is emptying once |
| Trash.EmptiedTrashShowsEmptyState | src/pages/App/scenes/Trash.tsx:40-50 | after emptying, the trash view shows its empty state |
| ClearHistory.RangeStart | src/pages/App/components/ClearClipboardModal.tsx:50-70 | the start is now minus 1 hour, 1 day, 7 days or 30 days in ms, and none for all time |
| ClearHistory.TrashAffected | src/pages/App/components/ClearClipboardModal.tsx:81-82 | affected records become trashed, others unchanged, ids in place |
| ClearHistory.Clear | src/pages/App/components/ClearClipboardModal.tsx:72-93 | trashed and spared records are kept; trash mode keeps length and marks affected records trashed; delete mode keeps exactly the spared records and drops exactly the affected count |
| ClearHistory.ClearKeepsOrder | src/pages/App/components/ClearClipboardModal.tsx:91-93 | survivors keep their order |
| ClearHistory.ClearIdempotent | src/pages/App/components/ClearClipboardModal.tsx:72-93 | clearing twice is clearing once |
| ClearHistory.AllTimeAffectsEverythingLive | src/pages/App/components/ClearClipboardModal.tsx:65-80 | with no start, every live record with a post-epoch time is affected |
| AssignLabel.Relabel | src/pages/App/components/AssignLabelModal.tsx:16-21 | records with the selected id become the snapshot with the new label; others and length unchanged |
| AssignLabel.RelabelFreshSnapshot | src/pages/App/components/AssignLabelModal.tsx:16-21 | with an up-to-date snapshot only the label changes |
| AssignLabel.RelabelStaleSnapshot | src/pages/App/components/AssignLabelModal.tsx:16-20 | trash, category and pin come from the snapshot, not the stored record |
| AssignLabel.RelabelIdempotent | src/pages/App/components/AssignLabelModal.tsx:19-21 | relabelling twice is relabelling once |
| Insights.PickTop | src/pages/App/scenes/Insights.tsx:24-29 | the pick has the largest count; with a non-zero count it is the first key reaching it, and every earlier key has a strictly smaller count |
| Insights.PickTopSkipsZeros | src/pages/App/scenes/Insights.tsx:53-65 | dropping zero counts first does not change the pick |
| Insights.CountSources | src/pages/App/scenes/Insights.tsx:11-22 | the loop counts each truthy hostname's records, trashed included, hostnames in first-seen order |
| Insights.TallySkip | src/pages/App/scenes/Insights.tsx:13-15 | a record without a hostname leaves the counts unchanged |
| Insights.TallyKnown | src/pages/App/scenes/Insights.tsx:16 | a known hostname's count goes up by one |
| Insights.TallyNew | src/pages/App/scenes/Insights.tsx:16 | a new hostname is added with a count of one |
| Insights.SourceCountSnoc | src/pages/App/scenes/Insights.tsx:16 | one more record adds one to its own hostname's count only |
| Insights.FindHost | src/pages/App/scenes/Insights.tsx:31-34 | `find`: the source of the first record with the hostname, none iff there is no such record |
| Insights.TopSourceWebsite | src/pages/App/scenes/Insights.tsx:6-35 | null on empty input; otherwise the first source of the most frequent hostname, ties to the earliest-seen hostname; without hostnames, the `find` for "" |
| Insights.TopSourceResult | src/pages/App/scenes/Insights.tsx:24-34 | the counts, pick and `find` together give that result |
| Insights.TopHostFound | src/pages/App/scenes/Insights.tsx:31-34 | with a hostname present, the pick is a counted hostname some record carries |
| Insights.HostCounted | src/pages/App/scenes/Insights.tsx:15-16 | a record's truthy hostname has a non-zero count |
| Insights.KeyedHostFound | src/pages/App/scenes/Insights.tsx:31-34 | a counted hostname is non-empty and found |
| Insights.TopHostIsMost | src/pages/App/scenes/Insights.tsx:24-29 | no hostname has more records than the pick |
| Insights.TopHostTie | src/pages/App/scenes/Insights.tsx:24-29 | a hostname first seen before the pick has strictly fewer records |
| Insights.NoHostNoTop | src/pages/App/scenes/Insights.tsx:24-29 | with no hostnames the pick stays "" |
| Insights.FindNamed | src/pages/App/scenes/Insights.tsx:67-69 | `find`: the first category with the name, none iff none has it |
| Insights.TopCategory | src/pages/App/scenes/Insights.tsx:37-72 | with a record filed under a listed name: the first category with the most-used name, ties to the earliest listed; otherwise the `find` for "" |
| Insights.ListNames | src/pages/App/scenes/Insights.tsx:41-44 | one zero count per distinct category name, in listed order |
| Insights.NamesStep | src/pages/App/scenes/Insights.tsx:42 | one category more keeps that record |
| Insights.CountFiled | src/pages/App/scenes/Insights.tsx:46-51 | each listed name holds the number of records filed under it |
| Insights.CategoryCountSnoc | src/pages/App/scenes/Insights.tsx:47-49 | one more record adds one to its own category name's count only |
| Insights.FiledCount | src/pages/App/scenes/Insights.tsx:48-49 | a record under a listed name adds one to it |
| Insights.FiledSkip | src/pages/App/scenes/Insights.tsx:48 | any other record changes no count |
| Insights.TopCategoryResult | src/pages/App/scenes/Insights.tsx:53-71 | counts, pick and `find` together give that result |
| Insights.TopCategoryFound | src/pages/App/scenes/Insights.tsx:57-71 | with a filed record the pick has a non-zero count and a category carries it |
| Insights.TopCategoryIsMost | src/pages/App/scenes/Insights.tsx:57-65 | no category's name is used more than the pick's |
| Insights.TopCategoryTie | src/pages/App/scenes/Insights.tsx:57-65 | a category listed before the winner's first has strictly fewer records |
| Insights.NoneFiledNoTop | src/pages/App/scenes/Insights.tsx:57-69 | with nothing filed the pick stays "" |
| Insights.Counters | src/pages/App/scenes/Insights.tsx:76-78 | Total is the number of live positions, Trashed of trashed positions, Pinned of pinned positions trash included; Total + Trashed = length |
| Insights.FlipTrashKeepsPinned | src/pages/App/scenes/Insights.tsx:77 | moving records to or from the trash leaves Pinned unchanged |
| SaveModal.SearchCategories | src/pages/App/components/SaveClipboardModal.tsx:46-59 | blank term lists all; otherwise exactly the names containing the term ignoring case, every copy of each, as a subsequence |
| SaveModal.SearchFindsExactName | src/pages/App/components/SaveClipboardModal.tsx:54-56 | searching a category's own name in any case lists it |
| SaveModal.Rows | src/pages/App/components/SaveClipboardModal.tsx:139-152 | "General" row first iff no category is named exactly "General", then one row per search result, each saving under its own title |
| SaveModal.SaveTargetIsRowName | src/pages/App/components/SaveClipboardModal.tsx:146-151 | every listed category has a row whose Save targets that category's name |
| Popup.DateLabel | src/pages/Popup/Popup.tsx:41-57 | TODAY for today, YESTERDAY for the day before, the locale date otherwise |
| Popup.RenderList | src/pages/Popup/Popup.tsx:59-90 | "No copied items" iff empty; otherwise the layout of the first ten records |
| Popup.LayoutRows | src/pages/Popup/Popup.tsx:69-87 | each shown record gives exactly one row, in order |
| Popup.SeparatorThenRow | src/pages/Popup/Popup.tsx:73-84 | a separator is always directly followed by a row |
| Popup.OneDayOneSeparator | src/pages/Popup/Popup.tsx:69-87 | records sharing one label get one separator, then all rows |
| Popup.FirstHasSeparator | src/pages/Popup/Popup.tsx:64-74 | the first record always gets a separator |
| Popup.CapturedRecordShowsNoIcon | src/pages/Popup/Popup.tsx:25-35 | a freshly captured record has no `website`, so no icon |
| Capture.NewRecord | src/utils/storageUtils.ts:13-27 | label = text, not pinned, not trashed, no category, source from the page with `url` |
| Capture.SaveCopied | src/utils/storageUtils.ts:29-42 | saved iff old length + 1 ≤ cap; then the new record is first and the old history follows |
| Capture.SaveKeepsCap | src/utils/storageUtils.ts:34-42 | a history within the cap stays within it |
| Capture.FullHistoryRefusesCopies | src/utils/storageUtils.ts:30-40 | at 100 records every copy is refused |
| Capture.SaveKeepsIdsUnique | src/utils/storageUtils.ts:32 | prepending a fresh id keeps ids unique |
| TruncateText.PrefixUpTo | src/utils/truncateText.ts:3 | `substring(0, n)`: a prefix of length max(n, 0) |
| TruncateText.Truncate | src/utils/truncateText.ts:1-5 | short text kept; longer text is a prefix plus "...", exactly `maxLength` long when `maxLength >= 3` |
| TruncateText.TruncateIdempotent | src/utils/truncateText.ts:2-4 | for every `maxLength`, truncating twice is truncating once |
| TruncateText.TruncateDefault | src/utils/truncateText.ts:1-3 | with the default 24, long text becomes 21 characters plus "..." |
| Handlers.Store.constructor | src/pages/App/scenes/History.tsx:64-86 | the dashboard starts from the stored lists, empty when missing |
| Handlers.Store.SaveCopiedItem | src/utils/storageUtils.ts:29-43 | prepend and write when within the cap, else one more notification and no write; keeps `Valid` for a fresh id |
| Handlers.Store.HandleCopyEvent | src/utils/storageUtils.ts:56-68 | saves iff the data was gathered and the text is non-empty, under the default cap of 100 |
| Handlers.Store.HandleCreateCategory | src/pages/App/scenes/History.tsx:88-113 | alert iff the name is taken; otherwise append and show; a missing list changes nothing |
| Handlers.Store.EnsureCategoryExists | src/pages/App/scenes/History.tsx:133-164 | returns the ensured category and writes only when it created one; the dashboard copy is untouched |
| Handlers.Store.HandleSaveToCategory | src/pages/App/scenes/History.tsx:115-131 | ensures the category, then files the record under it in storage and on screen |
| Handlers.Store.HandleCheck | src/pages/App/components/ListItem.tsx:44-52 | toggles the id in the checked list, nothing else changes |
| Handlers.Store.HandleMoveToTrash | src/pages/App/components/ListItem.tsx:63-76 | flips trash for the ids, shows the result, clears the selection |
| Handlers.Store.HandleUnsave | src/pages/App/components/ListItem.tsx:78-88 | uncategorises and unpins the record, stored and shown |
| Handlers.Store.HandleUnsaveFromGroup | src/pages/App/components/GroupedItems.tsx:102-112 | uncategorises the record and keeps its pin |
| Handlers.Store.HandleRestore | src/pages/App/components/ListItem.tsx:90-100 | restores the record, stored and shown |
| Handlers.Store.HandleDelete | src/pages/App/components/ListItem.tsx:102-113 | removes the record and clears the selection |
| Handlers.Store.HandleEmptyTrash | src/pages/App/scenes/Trash.tsx:22-38 | drops every trashed record, stored and shown |
| Handlers.Store.HandleConfirmClear | src/pages/App/components/ClearClipboardModal.tsx:43-102 | clears the dashboard's copy from the range start and writes the result to storage and screen |
| Handlers.Store.HandleAssignLabel | src/pages/App/components/AssignLabelModal.tsx:12-30 | relabels iff the label is non-empty, a record is selected and a history is stored |

## Left out

- Asynchronous storage: callbacks, promises and races between the popup, the dashboard and the content script. Each handler is one atomic step.
- Delivering notifications (`chrome.runtime.sendMessage`, the background page): the store only counts them.
- UI side effects: clipboard writes, toasts, `alert`, `delay`, loading flags, and opening or closing modals.
- Date and locale formatting: a record's calendar day and locale date text are parameters of `Popup.LabelBy`. Timestamp parsing is the `parse` parameter of `ClearHistory.Clear`.
- `uuid` and the clock: ids and "now" are parameters.
- Reading the page in the content script: its result is the `CopiedData` input.
- React context, hooks and presentational components.
- `Handlers.Store.EnsureCategoryExists`: the `catch` that returns `null` on a storage failure is not modelled. A non-array stored `categories` value is represented as a missing one.
- `Handlers.Store.HandleSaveToCategory`: a `null` category coming from that `catch` is not modelled.
- `ClearHistory.RangeStart`: the `default` branch of the `switch` cannot be reached, because the model's time ranges are exactly the five options.
- `Insights.TopSourceWebsite` and `Insights.TopCategory` order keys by first insertion. JavaScript enumerates integer-like keys (a category named "7") first, and in numeric order, so the tie rule is weaker for such names.
- `Insights.TopSourceWebsite` and `Insights.TopCategory` treat every name as an own key. In JavaScript, names of `Object.prototype` members, such as "constructor", already exist on a plain object, and the source misbehaves on them.
- `History.GroupItemsByCategory` puts keys in first-insertion order. `Object.entries` in `GroupedItems.tsx` lists integer-like names (a category named "2024") first, in numeric order, so their sections come earlier than the model says.
- `History.GroupItemsByCategory` groups every name as an own key. For a name of an `Object.prototype` member, such as "constructor" or "__proto__", `acc[categoryName]` is already truthy and `push` throws, so the History scene fails to render. The model does not capture that failure.
- `GroupedItems.Render` lists sections in the grouping's key order, so the integer-like key order above is not modelled for it either.
- `TruncateText.Truncate` and `TruncateText.PrefixUpTo` count Unicode scalar values. JavaScript's `length` and `substring` count UTF-16 code units, so a text with characters outside the Basic Multilingual Plane (emoji) is cut at a different place, and the source can split a surrogate pair. The model does not capture either.
- `Handlers.Store.HandleConfirmClear` does not promise `Valid()`. It writes the dashboard's copy of the history, which `Valid()` does not constrain.
- `Text.ToLower` lower-cases ASCII letters only. `Text.Trim` uses a fixed set of white-space code points. Neither applies full Unicode rules.
