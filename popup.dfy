/** The toolbar popup (src/pages/Popup/Popup.tsx): the newest ten records,
    each preceded by a date separator when its day label differs from the
    previous record's. Calendar days are numbers and the locale rendering of
    a date is a parameter. */
module Popup {
  import opened Types
  import opened Seqs
  import opened Capture

  /** `MAX_ITEMS_TO_SHOW`. */
  const MaxItemsToShow: nat := 10

  /** `renderDateSeparator`: "TODAY" for the current calendar day, "YESTERDAY"
      for the day before it, and the locale rendering of the date otherwise. */
  function DateLabel(itemDay: int, today: int, locale: string): (r: string)
    ensures itemDay == today ==> r == "TODAY"
    ensures itemDay == today - 1 ==> r == "YESTERDAY"
    ensures itemDay != today && itemDay != today - 1 ==> r == locale
    ensures locale != "" ==> r != ""
  {
    if itemDay == today then "TODAY"
    else if itemDay == today - 1 then "YESTERDAY"
    else locale
  }

  /** The label of a record, given how its timestamp maps to a calendar day
      and to a locale date text. */
  function LabelBy(dayOf: string -> int, today: int, localeOf: string -> string): Item -> string {
    (it: Item) => DateLabel(dayOf(it.timestamp), today, localeOf(it.timestamp))
  }

  /** What the popup list renders: a date separator, or a record row showing
      the record's text and the icon of its legacy `website` field. */
  datatype Entry = Separator(dayLabel: string) | Row(id: string, text: string, icon: Option<Source>)

  /** The popup body: the "No copied items" message, or the list. */
  datatype PopupView = NoItems | ItemList(entries: seq<Entry>)

  /** `renderCopiedItem`. */
  function RowOf(it: Item): Entry {
    Row(it.id, it.text, it.website)
  }

  /** The label of the record before `xs`'s last one, "" before the first. */
  function PrevLabel(xs: seq<Item>, labelOf: Item -> string): string {
    if xs == [] then "" else labelOf(xs[|xs| - 1])
  }

  /** The entries for one record, given the label currently in force. */
  function Block(it: Item, labelOf: Item -> string, current: string): seq<Entry> {
    (if labelOf(it) != current then [Separator(labelOf(it))] else []) + [RowOf(it)]
  }

  /** The entries for a run of records: each record's block, the label in
      force being the previous record's. */
  function Layout(xs: seq<Item>, labelOf: Item -> string): seq<Entry> {
    if xs == [] then []
    else
      var init := xs[..|xs| - 1];
      Layout(init, labelOf) + Block(xs[|xs| - 1], labelOf, PrevLabel(init, labelOf))
  }

  /** `renderCopiedItemsList`: nothing stored shows the message; otherwise the
      first ten records, in stored order, laid out by the separator loop. */
  method RenderList(items: seq<Item>, labelOf: Item -> string) returns (v: PopupView)
    ensures v.NoItems? <==> items == []
    ensures v.ItemList? ==>
              var shown := items[..if |items| < MaxItemsToShow then |items| else MaxItemsToShow];
              v.entries == Layout(shown, labelOf)
  {
    if |items| == 0 {
      return NoItems;
    }
    var currentDateLabel := "";
    var n := if |items| < MaxItemsToShow then |items| else MaxItemsToShow;
    var itemsToDisplay := items[..n];
    var entries: seq<Entry> := [];
    var i := 0;
    while i < |itemsToDisplay|
      invariant 0 <= i <= |itemsToDisplay|
      invariant entries == Layout(itemsToDisplay[..i], labelOf)
      invariant currentDateLabel == PrevLabel(itemsToDisplay[..i], labelOf)
    {
      var item := itemsToDisplay[i];
      assert itemsToDisplay[..i + 1][..i] == itemsToDisplay[..i];
      var dateLabel := labelOf(item);
      if dateLabel != currentDateLabel {
        currentDateLabel := dateLabel;
        entries := entries + [Separator(dateLabel), RowOf(item)];
      } else {
        entries := entries + [RowOf(item)];
      }
      i := i + 1;
    }
    assert itemsToDisplay[..i] == itemsToDisplay;
    return ItemList(entries);
  }

  /** One row per record, in order. */
  function Rows(xs: seq<Item>): (r: seq<Entry>)
    ensures |r| == |xs|
    ensures forall i :: 0 <= i < |xs| ==> r[i] == RowOf(xs[i])
  {
    if xs == [] then [] else Rows(xs[..|xs| - 1]) + [RowOf(xs[|xs| - 1])]
  }

  /** The entry is a record row. */
  function IsRow(e: Entry): bool {
    e.Row?
  }

  /** The rows of the layout are the records' rows, each once, in order. */
  lemma {:induction false} LayoutRows(xs: seq<Item>, labelOf: Item -> string)
    ensures Filter(Layout(xs, labelOf), IsRow) == Rows(xs)
  {
    if xs != [] {
      var init, last := xs[..|xs| - 1], xs[|xs| - 1];
      LayoutRows(init, labelOf);
      var b := Block(last, labelOf, PrevLabel(init, labelOf));
      FilterAppend(Layout(init, labelOf), b, IsRow);
      assert Filter(b, IsRow) == [RowOf(last)] by {
        if labelOf(last) != PrevLabel(init, labelOf) {
          assert b == [Separator(labelOf(last))] + [RowOf(last)];
          FilterAppend([Separator(labelOf(last))], [RowOf(last)], IsRow);
        }
      }
    }
  }

  /** Every separator is directly followed by a record row: there are never
      two separators in a row, nor one at the end. */
  lemma {:induction false} SeparatorThenRow(xs: seq<Item>, labelOf: Item -> string)
    ensures var es := Layout(xs, labelOf);
            forall j :: 0 <= j < |es| && es[j].Separator? ==> j + 1 < |es| && es[j + 1].Row?
  {
    if xs != [] {
      var init := xs[..|xs| - 1];
      SeparatorThenRow(init, labelOf);
      var pre := Layout(init, labelOf);
      var b := Block(xs[|xs| - 1], labelOf, PrevLabel(init, labelOf));
      var es := pre + b;
      assert |pre| == 0 || pre[|pre| - 1].Row? by {
        if |pre| > 0 {
          LayoutEndsWithRow(init, labelOf);
        }
      }
      forall j | 0 <= j < |es| && es[j].Separator? ensures j + 1 < |es| && es[j + 1].Row? {
        if j < |pre| {
          assert es[j] == pre[j];
        } else {
          assert es[j] == b[j - |pre|];
        }
      }
    }
  }

  /** A non-empty layout ends with a record row. */
  lemma LayoutEndsWithRow(xs: seq<Item>, labelOf: Item -> string)
    requires xs != []
    ensures |Layout(xs, labelOf)| > 0 && Layout(xs, labelOf)[|Layout(xs, labelOf)| - 1] == RowOf(xs[|xs| - 1])
  {
  }

  /** When every shown record has the same non-empty label (all copied today,
      say), the list is one separator followed by all the rows. */
  lemma {:induction false} OneDayOneSeparator(xs: seq<Item>, labelOf: Item -> string, l: string)
    requires xs != [] && l != ""
    requires forall i :: 0 <= i < |xs| ==> labelOf(xs[i]) == l
    ensures Layout(xs, labelOf) == [Separator(l)] + Rows(xs)
  {
    var init := xs[..|xs| - 1];
    if init != [] {
      OneDayOneSeparator(init, labelOf, l);
    }
  }

  /** The first record always gets a separator when its label is not empty. */
  lemma FirstHasSeparator(xs: seq<Item>, labelOf: Item -> string)
    requires xs != [] && labelOf(xs[0]) != ""
    ensures Layout(xs, labelOf)[0] == Separator(labelOf(xs[0]))
  {
    LayoutStartsWith(xs, labelOf);
  }

  /** The layout starts with the first record's block. */
  lemma {:induction false} LayoutStartsWith(xs: seq<Item>, labelOf: Item -> string)
    requires xs != []
    ensures Block(xs[0], labelOf, "") <= Layout(xs, labelOf)
  {
    var init := xs[..|xs| - 1];
    if init != [] {
      LayoutStartsWith(init, labelOf);
      assert init[0] == xs[0];
    }
  }

  /** Records captured by the current code carry their page under `source`
      and leave the legacy `website` field unset, so the popup shows them
      without an icon. */
  lemma CapturedRecordShowsNoIcon(data: CopiedData, id: string, now: string)
    ensures RowOf(NewRecord(data, id, now)).icon.None?
    ensures NewRecord(data, id, now).source.Some?
  {
  }
}
