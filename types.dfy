/** The records the extension persists under `clipboardHistory` and
    `categories` (src/types/index.ts), as they are actually stored. */
module Types {
  import opened Seqs

  datatype Option<+T> = None | Some(value: T)

  /** The page a text was copied from. The declared interface names the page
      address `href`, but capture writes it under `url`; both are kept so that
      records show which one they carry. */
  datatype Source = Source(
    name: string,
    hostname: string,
    href: Option<string>,
    url: Option<string>,
    favicon: string)

  /** A user-defined bucket; items hold a copy of it, not a reference. */
  datatype Category = Category(id: string, name: string)

  /** One clipboard record (`labelText` is the stored `label`). `source` is absent on records of the older schema,
      which carried the page under `website` instead; the popup still reads
      `website`. A missing `category` (undefined or null) is `None`. */
  datatype Item = Item(
    id: string,
    text: string,
    labelText: string,
    timestamp: string,
    category: Option<Category>,
    pinned: bool,
    isTrashed: bool,
    source: Option<Source>,
    website: Option<Source>)

  function IdOf(it: Item): string { it.id }

  function CategoryIdOf(c: Category): string { c.id }

  function IsTrashed(it: Item): bool { it.isTrashed }

  function IsLive(it: Item): bool { !it.isTrashed }

  function IsPinned(it: Item): bool { it.pinned }

  /** The invariant uuid generation gives the history: no two records share an id. */
  predicate UniqueIds(items: seq<Item>) {
    DistinctBy(items, IdOf)
  }

  /** Two lists agree position by position on their ids. */
  predicate SameIds(a: seq<Item>, b: seq<Item>) {
    |a| == |b| && forall i :: 0 <= i < |a| ==> a[i].id == b[i].id
  }

  /** Lists with the same ids position by position are equally free of duplicates. */
  lemma SameIdsUnique(a: seq<Item>, b: seq<Item>)
    requires SameIds(a, b) && UniqueIds(a)
    ensures UniqueIds(b)
  {
    forall i, j | 0 <= i < j < |b| ensures IdOf(b[i]) != IdOf(b[j]) {
      assert IdOf(a[i]) != IdOf(a[j]);
    }
  }

  /** Some record of `items` has id `id`. */
  predicate HasId(items: seq<Item>, id: string) {
    exists i :: 0 <= i < |items| && items[i].id == id
  }
}
