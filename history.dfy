/** The History scene (src/pages/App/scenes/History.tsx): the two groupings
    of the dashboard, category creation and lookup, and the item update that
    files a record under a category. The store reads and writes around these
    are in module Handlers. */
module History {
  import opened Types
  import opened Seqs
  import opened Text
  import opened Grouping

  /** `timestamp.split('T')[0]`: everything before the first 'T', or the
      whole string when there is none. */
  function DateKey(ts: string): (r: string)
    ensures r <= ts
    ensures 'T' !in r
    ensures |r| < |ts| ==> ts[|r|] == 'T'
  {
    if ts == [] || ts[0] == 'T' then [] else [ts[0]] + DateKey(ts[1..])
  }

  /** Every record is grouped by date. */
  function DateKeyOf(it: Item): Option<string> {
    Some(DateKey(it.timestamp))
  }

  /** Only records whose category is set and has a non-empty name are grouped by category. */
  function CategoryKeyOf(it: Item): Option<string> {
    if it.category.Some? && it.category.value.name != "" then Some(it.category.value.name) else None
  }

  /** `groupItemsByDate`: every record lands in exactly one date group, in input order. */
  method GroupItemsByDate(items: seq<Item>) returns (g: Groups<Item>)
    ensures g == GroupBy(items, DateKeyOf)
    ensures WellFormed(g)
    ensures forall k :: k in g.members ==>
              g.members[k] == Filter(items, KeyIs(DateKeyOf, k))
              && forall x :: x in g.members[k] ==> DateKey(x.timestamp) == k
    ensures forall i :: 0 <= i < |items| ==>
              DateKey(items[i].timestamp) in g.members
              && items[i] in g.members[DateKey(items[i].timestamp)]
    ensures SumSizes(g.keys, g.members) == |items|
  {
    g := Group(items, DateKeyOf);
    DateGroupsCover(items, g);
    FilterKeepsAll(items, IsKeyed(DateKeyOf));
  }

  /** Date groups built from `items` hold only their own date's records and
      each record sits in its date's group. */
  lemma DateGroupsCover(items: seq<Item>, g: Groups<Item>)
    requires forall k :: k in g.keys <==> exists i :: 0 <= i < |items| && DateKeyOf(items[i]) == Some(k)
    requires forall k :: k in g.members <==> k in g.keys
    requires forall k :: k in g.members ==> g.members[k] == Filter(items, KeyIs(DateKeyOf, k))
    ensures forall k :: k in g.members ==> forall x :: x in g.members[k] ==> DateKey(x.timestamp) == k
    ensures forall i :: 0 <= i < |items| ==>
              DateKey(items[i].timestamp) in g.members
              && items[i] in g.members[DateKey(items[i].timestamp)]
  {
    forall i | 0 <= i < |items|
      ensures DateKey(items[i].timestamp) in g.members
      ensures items[i] in g.members[DateKey(items[i].timestamp)]
    {
      assert DateKeyOf(items[i]) == Some(DateKey(items[i].timestamp));
      assert KeyIs(DateKeyOf, DateKey(items[i].timestamp))(items[i]);
    }
  }

  /** `groupItemsByCategory`: the records filed under a non-empty category
      name, grouped by that name in input order; uncategorised records appear
      in no group. */
  method GroupItemsByCategory(items: seq<Item>) returns (g: Groups<Item>)
    ensures g == GroupBy(items, CategoryKeyOf)
    ensures WellFormed(g)
    ensures forall k :: k in g.members ==>
              g.members[k] == Filter(items, KeyIs(CategoryKeyOf, k))
              && k != ""
              && forall x :: x in g.members[k] ==> x.category.Some? && x.category.value.name == k
    ensures forall i :: 0 <= i < |items| && items[i].category.Some? && items[i].category.value.name != "" ==>
              items[i].category.value.name in g.members
              && items[i] in g.members[items[i].category.value.name]
    ensures SumSizes(g.keys, g.members) == |Filter(items, IsKeyed(CategoryKeyOf))|
  {
    g := Group(items, CategoryKeyOf);
    forall i | 0 <= i < |items| && items[i].category.Some? && items[i].category.value.name != ""
      ensures items[i].category.value.name in g.members
      ensures items[i] in g.members[items[i].category.value.name]
    {
      assert KeyIs(CategoryKeyOf, items[i].category.value.name)(items[i]);
    }
    forall k | k in g.members ensures k != "" {
      var i :| 0 <= i < |items| && CategoryKeyOf(items[i]) == Some(k);
    }
  }

  /** The key under which a category is compared. */
  function NormalisedName(c: Category): string {
    Normalise(c.name)
  }

  /** The invariant category creation keeps: no two categories share a
      normalised name. */
  predicate NamesDistinct(cats: seq<Category>) {
    DistinctBy(cats, NormalisedName)
  }

  /** Some category's normalised name is `key`. */
  predicate KeyTaken(cats: seq<Category>, key: string) {
    exists i :: 0 <= i < |cats| && NormalisedName(cats[i]) == key
  }

  /** `categories.some(c => c.name.trim().toLowerCase() === name.trim().toLowerCase())`. */
  predicate NameTaken(cats: seq<Category>, name: string) {
    KeyTaken(cats, Normalise(name))
  }

  /** The category's normalised name is `key`. */
  function HasKey(key: string): Category -> bool {
    (c: Category) => NormalisedName(c) == key
  }

  /** The first category whose normalised name is `key`. */
  function FindByKey(cats: seq<Category>, key: string): (r: Option<Category>)
    ensures r.None? <==> !KeyTaken(cats, key)
    ensures r.Some? ==> exists i :: 0 <= i < |cats| && cats[i] == r.value
                          && NormalisedName(cats[i]) == key
                          && forall j :: 0 <= j < i ==> NormalisedName(cats[j]) != key
  {
    var i := FirstIndex(cats, HasKey(key));
    if i < |cats| then Some(cats[i]) else None
  }

  /** `categories.find(...)` with the same comparison. */
  function FindByName(cats: seq<Category>, name: string): Option<Category> {
    FindByKey(cats, Normalise(name))
  }

  /** The category a name creates: the typed name, trimmed. */
  function NewCategory(id: string, name: string): Category {
    Category(id, Trim(name))
  }

  /** `handleCreateCategory`'s decision: `None` when the name is taken (the
      user is alerted and nothing is written), otherwise the list with one
      new category appended. */
  function CreateCategory(cats: seq<Category>, name: string, id: string): (r: Option<seq<Category>>)
    ensures r.None? <==> NameTaken(cats, name)
    ensures r.Some? ==> r.value == cats + [Category(id, Trim(name))]
  {
    if NameTaken(cats, name) then None else Some(cats + [NewCategory(id, name)])
  }

  /** Appending a category whose name is not taken keeps names distinct. */
  lemma AppendKeepsNamesDistinct(cats: seq<Category>, name: string, id: string)
    requires NamesDistinct(cats) && !NameTaken(cats, name)
    ensures NamesDistinct(cats + [NewCategory(id, name)])
  {
    NormaliseTrim(name);
    var r := cats + [NewCategory(id, name)];
    forall i, j | 0 <= i < j < |r| ensures NormalisedName(r[i]) != NormalisedName(r[j]) {
      if j == |cats| {
        assert NormalisedName(cats[i]) != Normalise(name);
      }
    }
  }

  /** Creating a category never introduces two categories with the same normalised name. */
  lemma CreateKeepsNamesDistinct(cats: seq<Category>, name: string, id: string)
    requires NamesDistinct(cats)
    ensures CreateCategory(cats, name, id).Some? ==> NamesDistinct(CreateCategory(cats, name, id).value)
  {
    if !NameTaken(cats, name) {
      AppendKeepsNamesDistinct(cats, name, id);
    }
  }

  /** `ensureCategoryExists`: the stored list (a missing or non-array value
      counts as empty), the category found or created, and the list to write
      when one was created. */
  datatype Ensured = Ensured(category: Category, write: Option<seq<Category>>)

  function EnsureCategory(stored: Option<seq<Category>>, name: string, id: string): (r: Ensured)
    ensures var cats := if stored.Some? then stored.value else [];
            && (NameTaken(cats, name) ==> r.write.None? && FindByName(cats, name) == Some(r.category))
            && (!NameTaken(cats, name) ==> r.category == Category(id, Trim(name))
                                           && r.write == Some(cats + [r.category]))
  {
    var cats := if stored.Some? then stored.value else [];
    match FindByName(cats, name)
    case Some(c) => Ensured(c, None)
    case None => Ensured(NewCategory(id, name), Some(cats + [NewCategory(id, name)]))
  }

  /** When the name is taken, `ensureCategoryExists` returns the first stored
      category whose normalised name matches, as `find` does, even when the
      stored list holds several such categories. */
  lemma EnsureReturnsFirstMatch(cats: seq<Category>, name: string, id: string)
    requires NameTaken(cats, name)
    ensures var c := EnsureCategory(Some(cats), name, id).category;
            exists i :: 0 <= i < |cats| && cats[i] == c
                        && Normalise(cats[i].name) == Normalise(name)
                        && forall j :: 0 <= j < i ==> Normalise(cats[j].name) != Normalise(name)
  {
  }

  /** Ensuring a category twice under names that differ only in case or outer
      white space creates it once: the second call finds what the first
      created and writes nothing. */
  lemma EnsureTwiceCreatesOnce(cats: seq<Category>, a: string, b: string, id1: string, id2: string)
    requires Normalise(a) == Normalise(b)
    ensures var first := EnsureCategory(Some(cats), a, id1);
            var after := if first.write.Some? then first.write.value else cats;
            var second := EnsureCategory(Some(after), b, id2);
            second.write.None? && second.category == first.category
            && (first.write.Some? ==> |after| == |cats| + 1)
  {
    var first := EnsureCategory(Some(cats), a, id1);
    if NameTaken(cats, a) {
      assert NameTaken(cats, b);
    } else {
      NormaliseTrim(a);
      FindAppended(cats, NewCategory(id1, a), Normalise(b));
    }
  }

  /** When only the appended category matches, lookup finds it. */
  lemma FindAppended(cats: seq<Category>, c: Category, key: string)
    requires !KeyTaken(cats, key) && NormalisedName(c) == key
    ensures FindByKey(cats + [c], key) == Some(c)
  {
    var xs := cats + [c];
    var r := FirstIndex(xs, HasKey(key));
    assert HasKey(key)(xs[|cats|]);
    assert r == |cats|;
  }

  /** Ensuring a category keeps category names distinct. */
  lemma EnsureKeepsNamesDistinct(stored: Option<seq<Category>>, name: string, id: string)
    requires stored.Some? ==> NamesDistinct(stored.value)
    ensures EnsureCategory(stored, name, id).write.Some? ==>
              NamesDistinct(EnsureCategory(stored, name, id).write.value)
  {
    var cats := if stored.Some? then stored.value else [];
    if !NameTaken(cats, name) {
      AppendKeepsNamesDistinct(cats, name, id);
    }
  }

  /** `handleSaveClipboardItemToCategory`'s update: the records with the id
      get the category; nothing else about them, and no other record, changes.
      In particular `pinned` is left as it was. */
  function SetCategory(items: seq<Item>, id: string, c: Category): (r: seq<Item>)
    ensures SameIds(items, r)
    ensures forall i :: 0 <= i < |items| && items[i].id == id ==>
              r[i].category == Some(c) && r[i].(category := items[i].category) == items[i]
    ensures forall i :: 0 <= i < |items| && items[i].id != id ==> r[i] == items[i]
    ensures !HasId(items, id) ==> r == items
  {
    seq(|items|, i requires 0 <= i < |items| =>
      if items[i].id == id then items[i].(category := Some(c)) else items[i])
  }

  /** Filing a record keeps stored ids unique. */
  lemma SetCategoryKeepsIdsUnique(items: seq<Item>, id: string, c: Category)
    requires UniqueIds(items)
    ensures UniqueIds(SetCategory(items, id, c))
  {
    SameIdsUnique(items, SetCategory(items, id, c));
  }
}
