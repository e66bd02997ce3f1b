/** The "Save to category" dialog (src/pages/App/components/SaveClipboardModal.tsx):
    the category search, the synthetic "General" entry and what each row's
    Save button saves to. */
module SaveModal {
  import opened Types
  import opened Seqs
  import opened Text

  /** The category's lower-cased name contains the lower-cased, untrimmed term. */
  function MatchesTerm(term: string): Category -> bool {
    (c: Category) => Contains(ToLower(c.name), ToLower(term))
  }

  /** `handleSearchCategory`: a term that is blank after trimming lists every
      category; any other term lists the categories whose name contains it,
      ignoring ASCII case, in their stored order. */
  function SearchCategories(categories: seq<Category>, term: string): (r: seq<Category>)
    ensures Trim(term) == [] ==> r == categories
    ensures Trim(term) != [] ==>
              forall c :: c in r <==> c in categories && Contains(ToLower(c.name), ToLower(term))
    ensures Trim(term) != [] ==>
              forall c :: multiset(r)[c] ==
                          if Contains(ToLower(c.name), ToLower(term)) then multiset(categories)[c] else 0
    ensures IsSubsequence(r, categories)
  {
    FilterCount(categories, MatchesTerm(term));
    if Trim(term) == [] then
      FilterKeepsAll(categories, (c: Category) => true);
      FilterIsSubsequence(categories, (c: Category) => true);
      categories
    else
      FilterIsSubsequence(categories, MatchesTerm(term));
      Filter(categories, MatchesTerm(term))
  }

  /** Every text contains itself. */
  lemma ContainsSelf(s: string)
    ensures Contains(s, s)
  {
  }

  /** Searching for a category's exact name, in any ASCII case, lists it. */
  lemma SearchFindsExactName(categories: seq<Category>, c: Category, term: string)
    requires c in categories && Trim(term) != []
    requires ToLower(c.name) == ToLower(term)
    ensures c in SearchCategories(categories, term)
  {
    ContainsSelf(ToLower(term));
  }

  /** `!defaultCategory`: the synthetic "General" row is shown exactly when no
      category is named "General", compared case-sensitively. */
  predicate ShowsGeneral(categories: seq<Category>) {
    forall i :: 0 <= i < |categories| ==> categories[i].name != "General"
  }

  /** A row of the list: the name shown, and the record id and category name
      its Save button passes to `onSaveClipboard`. */
  datatype Row = Row(title: string, saveId: string, saveName: string)

  /** The row for a name. The row component's own button calls the
      `onSaveClipboard` it was given with `(savedClipboardId, 'General')`,
      but the function it was given ignores its arguments and saves to the
      row's own name. */
  function RowFor(savedId: string, name: string): Row {
    Row(name, savedId, name)
  }

  /** The list the dialog renders: the "General" row when it is shown, then
      one row per category of the current search result, in order. */
  function Rows(categories: seq<Category>, filtered: seq<Category>, savedId: string): (r: seq<Row>)
    ensures |r| == (if ShowsGeneral(categories) then 1 else 0) + |filtered|
    ensures ShowsGeneral(categories) ==> r[0] == Row("General", savedId, "General")
    ensures var off := if ShowsGeneral(categories) then 1 else 0;
            forall i :: 0 <= i < |filtered| ==> r[off + i].title == filtered[i].name
    ensures forall i :: 0 <= i < |r| ==> r[i].saveName == r[i].title && r[i].saveId == savedId
  {
    var rows := seq(|filtered|, i requires 0 <= i < |filtered| => RowFor(savedId, filtered[i].name));
    if ShowsGeneral(categories) then [RowFor(savedId, "General")] + rows else rows
  }

  /** Every Save button saves the record under the name its row shows, and
      the General row, when present, saves under "General". */
  lemma SaveTargetIsRowName(categories: seq<Category>, filtered: seq<Category>, savedId: string, i: int)
    requires 0 <= i < |filtered|
    ensures var r := Rows(categories, filtered, savedId);
            exists j :: 0 <= j < |r| && r[j].title == filtered[i].name
                        && r[j].saveName == filtered[i].name && r[j].saveId == savedId
  {
    var r := Rows(categories, filtered, savedId);
    var off := if ShowsGeneral(categories) then 1 else 0;
    assert r[off + i].title == filtered[i].name;
  }
}
