/** Clearing the history by time range
    (src/pages/App/components/ClearClipboardModal.tsx, handleConfirm).
    Times are milliseconds since the epoch; `parse` stands for
    `new Date(timestamp)`, `None` for an unparsable timestamp (NaN). */
module ClearHistory {
  import opened Types
  import opened Seqs

  /** The options of the range selector ("Last 4 weeks" is `LastMonth`). */
  datatype TimeRange = LastHour | LastDay | LastWeek | LastMonth | AllTime

  /** The switch of handleConfirm: the start of the range, `now` minus one
      hour, one day, seven days or thirty days; `None` (null) for all time. */
  method RangeStart(range: TimeRange, now: int) returns (start: Option<int>)
    ensures start.None? <==> range == AllTime
    ensures range == LastHour ==> start == Some(now - 3_600_000)
    ensures range == LastDay ==> start == Some(now - 86_400_000)
    ensures range == LastWeek ==> start == Some(now - 604_800_000)
    ensures range == LastMonth ==> start == Some(now - 2_592_000_000)
    ensures start.Some? ==> start.value < now
  {
    match range {
      case LastHour => start := Some(now - 1 * 60 * 60 * 1000);
      case LastDay => start := Some(now - 24 * 60 * 60 * 1000);
      case LastWeek => start := Some(now - 7 * 24 * 60 * 60 * 1000);
      case LastMonth => start := Some(now - 30 * 24 * 60 * 60 * 1000);
      case AllTime => start := None;
    }
  }

  /** `itemTime >= timeRangeStart`: a NaN time compares false, and a null
      start converts to 0, so "all time" means "at or after the epoch". */
  predicate InRange(time: Option<int>, start: Option<int>) {
    time.Some? && time.value >= (if start.Some? then start.value else 0)
  }

  /** A record the operation touches: not already trashed, inside the range,
      and, when categorised records are excluded, without a category. The
      option is labelled "Exclude Pinned Items", but it tests `category`, not
      the `pinned` flag. */
  function AffectedBy(start: Option<int>, excludePinned: bool, parse: string -> Option<int>): Item -> bool {
    (it: Item) => !it.isTrashed && InRange(parse(it.timestamp), start) && (!excludePinned || it.category.None?)
  }

  /** The negation of `AffectedBy`. */
  function SpareBy(start: Option<int>, excludePinned: bool, parse: string -> Option<int>): Item -> bool {
    (it: Item) => !AffectedBy(start, excludePinned, parse)(it)
  }

  /** Moves every affected record to the trash, in place. */
  function TrashAffected(items: seq<Item>, affected: Item -> bool): (r: seq<Item>)
    ensures SameIds(items, r)
    ensures forall i :: 0 <= i < |items| && affected(items[i]) ==>
              r[i].isTrashed && r[i].(isTrashed := items[i].isTrashed) == items[i]
    ensures forall i :: 0 <= i < |items| && !affected(items[i]) ==> r[i] == items[i]
  {
    seq(|items|, i requires 0 <= i < |items| =>
      if affected(items[i]) then items[i].(isTrashed := true) else items[i])
  }

  /** handleConfirm's list transform: affected records are trashed when
      `moveToTrash` is set and dropped otherwise; every other record,
      including every record already in the trash, is kept unchanged. */
  function Clear(items: seq<Item>, start: Option<int>, moveToTrash: bool, excludePinned: bool,
                 parse: string -> Option<int>): (r: seq<Item>)
    ensures forall x :: x in items && !AffectedBy(start, excludePinned, parse)(x) ==> x in r
    ensures forall x :: x in items && x.isTrashed ==> x in r
    ensures moveToTrash ==>
              SameIds(items, r)
              && (forall i :: 0 <= i < |items| && AffectedBy(start, excludePinned, parse)(items[i]) ==>
                    r[i] == items[i].(isTrashed := true))
              && (forall i :: 0 <= i < |items| && !AffectedBy(start, excludePinned, parse)(items[i]) ==>
                    r[i] == items[i])
    ensures !moveToTrash ==>
              (forall x :: x in r <==> x in items && !AffectedBy(start, excludePinned, parse)(x))
              && |r| == |items| - |Filter(items, AffectedBy(start, excludePinned, parse))|
  {
    var affected := AffectedBy(start, excludePinned, parse);
    if moveToTrash then
      var r := TrashAffected(items, affected);
      assert forall x :: x in items && !affected(x) ==> x in r by {
        forall x | x in items && !affected(x) ensures x in r {
          var i :| 0 <= i < |items| && items[i] == x;
          assert r[i] == x;
        }
      }
      r
    else
      FilterPartitionLength(items, SpareBy(start, excludePinned, parse), affected);
      Filter(items, SpareBy(start, excludePinned, parse))
  }

  /** Records that survive a permanent clear keep their order. */
  lemma ClearKeepsOrder(items: seq<Item>, start: Option<int>, excludePinned: bool, parse: string -> Option<int>)
    ensures IsSubsequence(Clear(items, start, false, excludePinned, parse), items)
  {
    FilterIsSubsequence(items, SpareBy(start, excludePinned, parse));
  }

  /** Clearing twice with the same settings is clearing once: what the first
      pass trashed is skipped by the second, and what it kept or spared is
      still spared. */
  lemma ClearIdempotent(items: seq<Item>, start: Option<int>, moveToTrash: bool, excludePinned: bool,
                        parse: string -> Option<int>)
    ensures var once := Clear(items, start, moveToTrash, excludePinned, parse);
            Clear(once, start, moveToTrash, excludePinned, parse) == once
  {
    var once := Clear(items, start, moveToTrash, excludePinned, parse);
    var spare := SpareBy(start, excludePinned, parse);
    if moveToTrash {
      var twice := Clear(once, start, moveToTrash, excludePinned, parse);
      forall i | 0 <= i < |once| ensures twice[i] == once[i] {
      }
    } else {
      forall i | 0 <= i < |once| ensures spare(once[i]) {
        assert once[i] in once;
      }
      FilterKeepsAll(once, spare);
    }
  }

  /** With "all time" and nothing excluded, every record that is not in the
      trash and carries a parsable post-epoch timestamp is affected. */
  lemma AllTimeAffectsEverythingLive(it: Item, parse: string -> Option<int>)
    requires !it.isTrashed
    requires parse(it.timestamp).Some? && parse(it.timestamp).value >= 0
    ensures AffectedBy(None, false, parse)(it)
  {
  }
}
