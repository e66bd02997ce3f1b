/** Capture of a copied text (src/utils/storageUtils.ts): the record
    `saveCopiedItem` builds and the outcome of adding it to the stored
    history under the item cap. The store update itself is
    `Handlers.Store.SaveCopiedItem`. */
module Capture {
  import opened Types

  /** The default `maxClipboardItems`. */
  const DefaultMaxItems: int := 100

  /** What the content script gathers on a copy event. */
  datatype CopiedData = CopiedData(copiedText: string, url: string, hostname: string, name: string, favicon: string)

  /** The new record: label equal to the text, neither pinned nor trashed,
      no category, and the page written as a source carrying `url` (not the
      declared `href`). `id` and `now` (an ISO-8601 time) stand for `uuid()`
      and `new Date().toISOString()`. */
  function NewRecord(data: CopiedData, id: string, now: string): (r: Item)
    ensures r.id == id && r.timestamp == now
    ensures r.text == data.copiedText && r.labelText == data.copiedText
    ensures !r.pinned && !r.isTrashed && r.category.None?
    ensures r.source == Some(Source(data.name, data.hostname, None, Some(data.url), data.favicon))
    ensures r.website.None?
  {
    Item(id, data.copiedText, data.copiedText, now, None, false, false,
         Some(Source(data.name, data.hostname, None, Some(data.url), data.favicon)), None)
  }

  /** `result.clipboardHistory || []`. */
  function StoredOrEmpty(stored: Option<seq<Item>>): seq<Item> {
    if stored.Some? then stored.value else []
  }

  /** The outcome of a save: the history to write, or the limit notification. */
  datatype SaveOutcome = Saved(history: seq<Item>) | LimitReached

  /** `unshift` and the cap test: the record goes in front of the stored
      history, and the result is written only if it is within the cap. */
  function SaveCopied(stored: Option<seq<Item>>, rec: Item, max: int): (r: SaveOutcome)
    ensures r.Saved? <==> |StoredOrEmpty(stored)| + 1 <= max
    ensures r.Saved? ==> |r.history| == |StoredOrEmpty(stored)| + 1
                         && r.history[0] == rec && r.history[1..] == StoredOrEmpty(stored)
  {
    var h := [rec] + StoredOrEmpty(stored);
    if |h| > max then LimitReached else Saved(h)
  }

  /** A history within the cap stays within it: either the save fits, or
      nothing is written. */
  lemma SaveKeepsCap(stored: Option<seq<Item>>, rec: Item, max: int)
    requires |StoredOrEmpty(stored)| <= max
    ensures SaveCopied(stored, rec, max).Saved? ==> |SaveCopied(stored, rec, max).history| <= max
    ensures SaveCopied(stored, rec, max).LimitReached? ==> |StoredOrEmpty(stored)| == max
  {
  }

  /** A full history is frozen: with the default cap, once 100 records are
      stored every further copy only raises the notification, and the oldest
      records are never evicted. */
  lemma FullHistoryRefusesCopies(stored: seq<Item>, rec: Item)
    requires |stored| >= DefaultMaxItems
    ensures SaveCopied(Some(stored), rec, DefaultMaxItems) == LimitReached
  {
  }

  /** Saving to a history without the new id keeps ids unique. */
  lemma SaveKeepsIdsUnique(stored: Option<seq<Item>>, rec: Item, max: int)
    requires UniqueIds(StoredOrEmpty(stored)) && !HasId(StoredOrEmpty(stored), rec.id)
    ensures SaveCopied(stored, rec, max).Saved? ==> UniqueIds(SaveCopied(stored, rec, max).history)
  {
    var prior := StoredOrEmpty(stored);
    var h := [rec] + prior;
    forall i, j | 0 <= i < j < |h| ensures IdOf(h[i]) != IdOf(h[j]) {
      if i == 0 {
        assert h[j] == prior[j - 1];
      } else {
        assert h[i] == prior[i - 1] && h[j] == prior[j - 1];
      }
    }
  }

  /** `handleCopyEvent`: the save happens only when gathering the data
      succeeded (`None` stands for the exception the `catch` swallows) and
      the copied text is not empty. */
  predicate WillSave(data: Option<CopiedData>) {
    data.Some? && data.value.copiedText != ""
  }
}
