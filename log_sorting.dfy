/**
 * The logs page's list (`filterAndSortLogs`): unless all logs are shown,
 * keep those of the last 24 hours; keep those of the selected day; then
 * order by creation time or by lower-cased status.
 */
module LogSorting {
  import opened Wrappers
  import opened Text
  import opened Seqs
  import opened Types
  import opened Ordering

  datatype SortBy = ByDate | ByStatus

  /** 24 hours in milliseconds. */
  const DayMillis: int := 24 * 60 * 60 * 1000

  /** The start of the 24-hour window ending at `now`. */
  function Past24Hours(now: int): int {
    now - DayMillis
  }

  /** Whether a log survives both filters; a missing `showAllLogs` counts as false. */
  predicate Kept(log: Log, selectedDate: Option<DayWindow>, showAllLogs: bool, now: int) {
    && (!showAllLogs ==> log.createdAt >= Past24Hours(now))
    && (selectedDate.Some? ==> selectedDate.value.Holds(log.createdAt))
  }

  /**
   * The sort key. `collate` ranks strings the way `localeCompare` orders
   * them; descending order negates the key, which reverses the comparator.
   */
  function LogKey(sortBy: SortBy, sortOrder: SortOrder, collate: string -> int): Log -> int {
    (log: Log) =>
      var k := if sortBy == ByDate then log.createdAt else collate(Lower(log.status));
      if sortOrder == Asc then k else -k
  }

  /**
   * The two filters of `filterAndSortLogs`, each applied only when its
   * input asks for it: what is left is every kept log, each as often as in
   * the input.
   */
  method FilterLogs(logs: seq<Log>, selectedDate: Option<DayWindow>, showAllLogs: bool, now: int)
    returns (filtered: seq<Log>)
    ensures forall log :: multiset(filtered)[log] == if Kept(log, selectedDate, showAllLogs, now) then multiset(logs)[log] else 0
  {
    filtered := logs;
    if !showAllLogs {
      var past24Hours := now - DayMillis;
      filtered := Filter(filtered, (log: Log) => log.createdAt >= past24Hours);
    }
    if selectedDate.Some? {
      var day := selectedDate.value;
      filtered := Filter(filtered, (log: Log) => day.Holds(log.createdAt));
    }
  }

  /** Ordered by the sort key means ordered by time or by collated status, rising or falling as asked. */
  lemma SortedByLogKey(xs: seq<Log>, sortBy: SortBy, sortOrder: SortOrder, collate: string -> int)
    requires SortedBy(xs, LogKey(sortBy, sortOrder, collate))
    ensures sortBy == ByDate && sortOrder == Asc ==>
      forall i, j :: 0 <= i < j < |xs| ==> xs[i].createdAt <= xs[j].createdAt
    ensures sortBy == ByDate && sortOrder == Desc ==>
      forall i, j :: 0 <= i < j < |xs| ==> xs[i].createdAt >= xs[j].createdAt
    ensures sortBy == ByStatus && sortOrder == Asc ==>
      forall i, j :: 0 <= i < j < |xs| ==> collate(Lower(xs[i].status)) <= collate(Lower(xs[j].status))
    ensures sortBy == ByStatus && sortOrder == Desc ==>
      forall i, j :: 0 <= i < j < |xs| ==> collate(Lower(xs[i].status)) >= collate(Lower(xs[j].status))
  {
    var key := LogKey(sortBy, sortOrder, collate);
    forall i, j | 0 <= i < j < |xs|
      ensures key(xs[i]) <= key(xs[j])
    {
    }
  }

  /**
   * `filterAndSortLogs` with the clock reading `now` passed in: a fresh
   * list holding exactly the logs that pass the filters, each as often as
   * in the input, ordered by time or by collated lower-cased status.
   */
  method FilterAndSortLogs(logs: seq<Log>, sortBy: SortBy, sortOrder: SortOrder, selectedDate: Option<DayWindow>,
                           showAllLogs: bool, now: int, collate: string -> int)
    returns (result: seq<Log>)
    ensures forall log :: multiset(result)[log] == if Kept(log, selectedDate, showAllLogs, now) then multiset(logs)[log] else 0
    ensures sortBy == ByDate && sortOrder == Asc ==>
      forall i, j :: 0 <= i < j < |result| ==> result[i].createdAt <= result[j].createdAt
    ensures sortBy == ByDate && sortOrder == Desc ==>
      forall i, j :: 0 <= i < j < |result| ==> result[i].createdAt >= result[j].createdAt
    ensures sortBy == ByStatus && sortOrder == Asc ==>
      forall i, j :: 0 <= i < j < |result| ==> collate(Lower(result[i].status)) <= collate(Lower(result[j].status))
    ensures sortBy == ByStatus && sortOrder == Desc ==>
      forall i, j :: 0 <= i < j < |result| ==> collate(Lower(result[i].status)) >= collate(Lower(result[j].status))
    ensures showAllLogs && selectedDate.None? ==> multiset(result) == multiset(logs)
  {
    var filteredLogs := FilterLogs(logs, selectedDate, showAllLogs, now);
    result := SortByKey(filteredLogs, LogKey(sortBy, sortOrder, collate));
    SortedByLogKey(result, sortBy, sortOrder, collate);
  }
}
