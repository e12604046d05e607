/** The daily rollup of the request log, and the series the dashboards read from it. Dates are day
    numbers, instants are microseconds since the start of day 0. */
module Rollup {
  import opened Options
  import opened Logs
  import opened Sums
  import opened Sets
  import opened Calendar

  type OrgId = nat
  type ApiId = nat

  datatype Request = Request(
    org: OrgId, api: ApiId, createdAt: int, status: int, latency: int, requestBytes: nat, responseBytes: nat)

  /** The aggregated columns of a `daily_usage` row. */
  datatype Usage = Usage(requests: nat, errors: nat, latency: int, requestBytes: nat, responseBytes: nat)

  /** What a row is about. The table's own unique constraint is on (api, day) only. */
  datatype Key = Key(org: OrgId, api: ApiId, day: int)

  type Table = map<Key, Usage>

  /** A day of the series the dashboards read. */
  datatype Entry = Entry(day: int, requests: int, errors: int, averageLatency: real)

  /** What the series is about. */
  datatype Measure = Requests | Errors | Latency | RequestBytes | ResponseBytes

  const NOTHING := Usage(0, 0, 0, 0, 0)

  predicate IsError(r: Request) { r.status >= 500 }

  function Plus(u: Usage, r: Request): Usage {
    Usage(u.requests + 1, u.errors + (if IsError(r) then 1 else 0), u.latency + r.latency,
          u.requestBytes + r.requestBytes, u.responseBytes + r.responseBytes)
  }

  /** `time.min` to `time.max` of the day, both inclusive. */
  predicate InDay(r: Request, day: int) { day * DAY <= r.createdAt <= day * DAY + (DAY - 1) }

  /** The inclusive microsecond bounds partition time: every instant lies in exactly one day. */
  lemma DaysPartitionTime(r: Request, day: int)
    ensures InDay(r, day) <==> day == r.createdAt / DAY
  {
  }

  // ---- Direct aggregates over the log ----------------------------------------------------------

  predicate Matches(r: Request, k: Key) { r.org == k.org && r.api == k.api && InDay(r, k.day) }

  /** The aggregate of one (organization, api, day), straight from the log. */
  function Aggregate(log: Log<Request>, k: Key): Usage {
    match log
    case Empty => NOTHING
    case More(before, r) => if Matches(r, k) then Plus(Aggregate(before, k), r) else Aggregate(before, k)
  }

  predicate Present(log: Log<Request>, k: Key) {
    log.More? && (Matches(log.last, k) || Present(log.before, k))
  }

  /** The result of GROUP BY for one day, in one pass over the log. */
  function GroupBy(log: Log<Request>, day: int): Table {
    match log
    case Empty => map[]
    case More(before, r) =>
      var groups := GroupBy(before, day);
      if !InDay(r, day) then groups else
        var k := Key(r.org, r.api, day);
        groups[k := Plus(if k in groups then groups[k] else NOTHING, r)]
  }

  /** Grouping in one pass gives every group its direct aggregate, and no group that is empty. */
  lemma {:induction false} GroupsAreAggregates(log: Log<Request>, day: int)
    ensures forall k: Key :: k in GroupBy(log, day) <==> k.day == day && Present(log, k)
    ensures forall k: Key | k in GroupBy(log, day) :: GroupBy(log, day)[k] == Aggregate(log, k)
    ensures forall k: Key | k.day == day && !Present(log, k) :: Aggregate(log, k) == NOTHING
  {
    if log.More? {
      GroupsAreAggregates(log.before, day);
    }
  }

  // ---- The rollup ------------------------------------------------------------------------------

  /** The table after `rollup_daily(day)`: the day's rows are the day's direct aggregates, all other
      rows are as they were. */
  ghost predicate IsRollup(table: Table, after: Table, log: Log<Request>, day: int) {
    && (forall k: Key | k.day != day :: k in after <==> k in table)
    && (forall k: Key | k.day != day && k in after :: after[k] == table[k])
    && (forall k: Key | k.day == day :: k in after <==> Present(log, k))
    && (forall k: Key | k.day == day && k in after :: after[k] == Aggregate(log, k))
  }

  /** Delete the day, then insert its groups. */
  function RolledUp(table: Table, log: Log<Request>, day: int): Table {
    (map k | k in table && k.day != day :: table[k]) + GroupBy(log, day)
  }

  lemma RolledUpIsRollup(table: Table, log: Log<Request>, day: int)
    ensures IsRollup(table, RolledUp(table, log, day), log, day)
  {
    GroupsAreAggregates(log, day);
  }

  /** From any prior contents the result is determined, and rolling the day up again changes nothing. */
  lemma RollupIsIdempotent(table: Table, once: Table, twice: Table, log: Log<Request>, day: int)
    requires IsRollup(table, once, log, day) && IsRollup(once, twice, log, day)
    ensures twice == once
  {
    forall k
      ensures k in twice <==> k in once
      ensures k in once ==> twice[k] == once[k]
    {
      if k.day == day {
      }
    }
  }

  /** UniqueConstraint("api_id", "usage_date") */
  predicate UniqueRows(table: Table) {
    forall k, l | k in table && l in table && k.api == l.api && k.day == l.day :: k == l
  }

  /** All logged requests of one API on the day carry one organization. */
  ghost predicate OneOwner(log: Log<Request>, day: int) {
    forall k, l | Present(log, k) && Present(log, l) && k.api == l.api && k.day == l.day == day :: k.org == l.org
  }

  /** The insert violates the unique constraint exactly when an API was logged under two
      organizations on that day. */
  lemma UniqueIffOneOwner(table: Table, after: Table, log: Log<Request>, day: int)
    requires IsRollup(table, after, log, day) && UniqueRows(table)
    ensures UniqueRows(after) <==> OneOwner(log, day)
  {
    if OneOwner(log, day) {
      forall k, l | k in after && l in after && k.api == l.api && k.day == l.day
        ensures k == l
      {
        if k.day == day {
          assert Present(log, k) && Present(log, l);
        } else {
          assert k in table && l in table;
        }
      }
    } else {
      var k, l :| Present(log, k) && Present(log, l) && k.api == l.api && k.day == l.day == day && k.org != l.org;
      assert k in after && l in after;
    }
  }

  /** The table once all groups but those in `rest` are inserted over the rows kept. */
  ghost predicate Inserting(table: Table, kept: Table, groups: Table, rest: set<Key>) {
    rest <= groups.Keys && table == kept + (groups - rest)
  }

  lemma InsertNone(kept: Table, groups: Table)
    ensures Inserting(kept, kept, groups, groups.Keys)
  {
    assert groups - groups.Keys == map[];
  }

  lemma InsertOne(table: Table, kept: Table, groups: Table, rest: set<Key>, k: Key)
    requires Inserting(table, kept, groups, rest) && k in rest
    ensures k in groups && Inserting(table[k := groups[k]], kept, groups, rest - {k})
  {
  }

  lemma InsertAll(table: Table, kept: Table, groups: Table)
    requires Inserting(table, kept, groups, {})
    ensures table == kept + groups
  {
    assert groups - {} == groups;
  }

  /** `AnalyticsRepository` over its session. */
  class Analytics {
    var table: Table

    constructor (table: Table)
      ensures this.table == table
    {
      this.table := table;
    }

    /** `rollup_daily`: delete the day's rows, then add one row per group; the flush raises if that
        breaks the unique constraint. Returns the number of groups. */
    method RollupDaily(log: Log<Request>, day: int) returns (count: nat, raised: bool)
      modifies this
      ensures IsRollup(old(table), table, log, day)
      ensures count == |GroupBy(log, day)|
      ensures raised <==> !UniqueRows(table)
    {
      ghost var before := table;
      table := map k | k in table && k.day != day :: table[k];
      var groups := GroupBy(log, day);
      AddAll(groups);
      count := |groups|;
      assert table == RolledUp(before, log, day);
      RolledUpIsRollup(before, log, day);
      raised := !UniqueRows(table);
    }

    /** The insert loop: one row per group, in whatever order they come. */
    method AddAll(groups: Table)
      modifies this
      ensures table == old(table) + groups
    {
      ghost var kept := table;
      var rest := groups.Keys;
      InsertNone(kept, groups);
      while rest != {}
        invariant Inserting(table, kept, groups, rest)
        decreases rest
      {
        var k :| k in rest;
        InsertOne(table, kept, groups, rest, k);
        table := table[k := groups[k]];
        rest := rest - {k};
      }
      InsertAll(table, kept, groups);
    }

    /** The scheduled task: yesterday and today in one transaction, which is rolled back if either
        raises; and that happens only if some API was logged under two organizations in one day. */
    method RollupTask(log: Log<Request>, today: int) returns (count: nat, raised: bool)
      requires UniqueRows(table)
      modifies this
      ensures raised <==> !(OneOwner(log, today - 1) && OneOwner(log, today))
      ensures raised ==> table == old(table)
      ensures !raised ==>
                && UniqueRows(table)
                && (forall k: Key | k.day != today && k.day != today - 1 :: k in table <==> k in old(table))
                && (forall k: Key | k in table && k.day != today && k.day != today - 1 :: table[k] == old(table)[k])
                && Rolled(table, log, today - 1) && Rolled(table, log, today)
                && count == |GroupBy(log, today - 1)| + |GroupBy(log, today)|
    {
      var snapshot := table;
      var first, second := 0, 0;
      first, raised := RollupDaily(log, today - 1);
      UniqueIffOneOwner(snapshot, table, log, today - 1);
      if !raised {
        ghost var between := table;
        second, raised := RollupDaily(log, today);
        UniqueIffOneOwner(between, table, log, today);
      }
      count := first + second;
      if raised {
        table := snapshot;
      }
    }

    /** `daily_series`: one entry per day that has a row in scope, oldest first. */
    method DailySeries(org: OrgId, api: Option<ApiId>, since: int) returns (series: seq<Entry>)
      ensures IsSeries(series, table, org, api, since)
    {
      var days := set k | k in table && InScope(org, api, k.day)(k) && since <= k.day :: k.day;
      series := EntriesFor(org, api, days);
    }

    method DayEntry(org: OrgId, api: Option<ApiId>, day: int) returns (entry: Entry)
      ensures entry == EntryFor(table, org, api, day)
    {
      var requests := AddUp(Column(table, RequestsOf), InScope(org, api, day));
      var errors := AddUp(Column(table, ErrorsOf), InScope(org, api, day));
      var latency := AddUp(Column(table, LatencyOf), InScope(org, api, day));
      entry := Entry(day, requests, errors, Average(latency, requests));
    }

    method EntriesFor(org: OrgId, api: Option<ApiId>, all: set<int>) returns (series: seq<Entry>)
      ensures forall i, j | 0 <= i < j < |series| :: series[i].day < series[j].day
      ensures DaysOf(series) == all
      ensures forall i | 0 <= i < |series| :: series[i] == EntryFor(table, org, api, series[i].day)
    {
      series := [];
      var days := all;
      while days != {}
        invariant days <= all && DaysOf(series) == all - days
        invariant forall i, d | 0 <= i < |series| && d in days :: series[i].day < d
        invariant forall i, j | 0 <= i < j < |series| :: series[i].day < series[j].day
        invariant forall i | 0 <= i < |series| :: series[i] == EntryFor(table, org, api, series[i].day)
        decreases days
      {
        var day := LeastOf(days, (d: int) => d);
        var entry := DayEntry(org, api, day);
        DaysGrow(series, entry);
        series := series + [entry];
        days := days - {day};
      }
    }
  }

  function DaysOf(series: seq<Entry>): set<int> { set i | 0 <= i < |series| :: series[i].day }

  lemma DaysGrow(series: seq<Entry>, e: Entry)
    ensures DaysOf(series + [e]) == DaysOf(series) + {e.day}
  {
    var more := series + [e];
    assert more[|series|] == e;
    forall d | d in DaysOf(series)
      ensures d in DaysOf(more)
    {
      var i :| 0 <= i < |series| && series[i].day == d;
      assert more[i] == series[i];
    }
  }

  /** One entry for each day from `since` that has a row in scope, oldest first, with the sums over
      these rows. */
  ghost predicate IsSeries(series: seq<Entry>, table: Table, org: OrgId, api: Option<ApiId>, since: int) {
    && (forall i, j | 0 <= i < j < |series| :: series[i].day < series[j].day)
    && (forall day :: day in DaysOf(series) <==> since <= day && HasRow(table, org, api, day))
    && (forall i | 0 <= i < |series| :: series[i] == EntryFor(table, org, api, series[i].day))
  }

  function Average(total: int, count: int): real { if count == 0 then 0.0 else total as real / count as real }

  ghost function EntryFor(table: Table, org: OrgId, api: Option<ApiId>, day: int): Entry {
    var requests := SeriesSum(table, RequestsOf, org, api, day);
    Entry(day, requests, SeriesSum(table, ErrorsOf, org, api, day),
          Average(SeriesSum(table, LatencyOf, org, api, day), requests))
  }

  // ---- The series agrees with the log ----------------------------------------------------------

  function RequestsOf(u: Usage): int { u.requests }

  function ErrorsOf(u: Usage): int { u.errors }

  function LatencyOf(u: Usage): int { u.latency }

  function Column(table: Table, column: Usage -> int): map<Key, int> {
    map k | k in table :: column(table[k])
  }

  /** WHERE organization = org [AND api = api], GROUP BY day. */
  function InScope(org: OrgId, api: Option<ApiId>, day: int): Key -> bool {
    (k: Key) => k.org == org && (api.Some? ==> k.api == api.value) && k.day == day
  }

  predicate HasRow(table: Table, org: OrgId, api: Option<ApiId>, day: int) {
    exists k | k in table :: InScope(org, api, day)(k)
  }

  ghost function SeriesSum(table: Table, column: Usage -> int, org: OrgId, api: Option<ApiId>, day: int): int {
    Sum(Column(table, column), InScope(org, api, day))
  }

  predicate LogInScope(r: Request, org: OrgId, api: Option<ApiId>) {
    r.org == org && (api.Some? ==> r.api == api.value)
  }

  /** What one request adds to a measure. */
  function Amount(r: Request, what: Measure): int {
    match what
    case Requests => 1
    case Errors => if r.status >= 500 then 1 else 0
    case Latency => r.latency
    case RequestBytes => r.requestBytes
    case ResponseBytes => r.responseBytes
  }

  /** The measure of the requests in scope with `created_at` in [lo, hi), straight from the log. */
  function MeasureLog(log: Log<Request>, what: Measure, org: OrgId, api: Option<ApiId>, lo: int, hi: int): int {
    match log
    case Empty => 0
    case More(before, r) =>
      MeasureLog(before, what, org, api, lo, hi) +
      if LogInScope(r, org, api) && lo <= r.createdAt < hi then Amount(r, what) else 0
  }

  function ColumnFor(what: Measure): Usage -> int {
    match what
    case Requests => RequestsOf
    case Errors => ErrorsOf
    case Latency => LatencyOf
    case RequestBytes => (u: Usage) => u.requestBytes
    case ResponseBytes => (u: Usage) => u.responseBytes
  }

  lemma {:induction false} GroupsSumToCount(log: Log<Request>, what: Measure, org: OrgId, api: Option<ApiId>,
                                            day: int)
    ensures SeriesSum(GroupBy(log, day), ColumnFor(what), org, api, day)
         == MeasureLog(log, what, org, api, day * DAY, (day + 1) * DAY)
  {
    if log.More? {
      var before, r := log.before, log.last;
      GroupsSumToCount(before, what, org, api, day);
      if InDay(r, day) {
        var groups, k := GroupBy(before, day), Key(r.org, r.api, day);
        var column := Column(groups, ColumnFor(what));
        var v := ColumnFor(what)(GroupBy(log, day)[k]);
        SumWrite(column, InScope(org, api, day), k, v);
        assert Column(GroupBy(log, day), ColumnFor(what)) == column[k := v];
      }
    }
  }

  /** The day is rolled up: its rows are the direct aggregates. */
  ghost predicate Rolled(table: Table, log: Log<Request>, day: int) {
    forall k: Key | k.day == day :: (k in table <==> Present(log, k)) && (k in table ==> table[k] == Aggregate(log, k))
  }

  /** On a rolled-up day the series totals are the direct counts, and the day has an entry exactly
      when something was logged in scope. */
  lemma SeriesIsCount(table: Table, log: Log<Request>, what: Measure, org: OrgId, api: Option<ApiId>, day: int)
    requires Rolled(table, log, day)
    ensures SeriesSum(table, ColumnFor(what), org, api, day)
         == MeasureLog(log, what, org, api, day * DAY, (day + 1) * DAY)
    ensures HasRow(table, org, api, day) <==> MeasureLog(log, Requests, org, api, day * DAY, (day + 1) * DAY) > 0
  {
    GroupsAreAggregates(log, day);
    GroupsSumToCount(log, what, org, api, day);
    SumAgree(Column(table, ColumnFor(what)), Column(GroupBy(log, day), ColumnFor(what)),
             InScope(org, api, day));
    PresentIffCounted(log, org, api, day);
  }

  lemma {:induction false} PresentIffCounted(log: Log<Request>, org: OrgId, api: Option<ApiId>, day: int)
    ensures (exists k :: Present(log, k) && InScope(org, api, day)(k))
       <==> MeasureLog(log, Requests, org, api, day * DAY, (day + 1) * DAY) > 0
    ensures MeasureLog(log, Requests, org, api, day * DAY, (day + 1) * DAY) >= 0
  {
    if log.More? {
      PresentIffCounted(log.before, org, api, day);
      var r := log.last;
      var k := Key(r.org, r.api, day);
      if LogInScope(r, org, api) && InDay(r, day) {
        assert Present(log, k) && InScope(org, api, day)(k);
      } else if l :| Present(log, l) && InScope(org, api, day)(l) {
        assert Present(log.before, l);
      }
    }
  }

  /** On a rolled-up day the entry says what the log says: requests, errors, and the average latency. */
  lemma EntryIsLogged(table: Table, log: Log<Request>, org: OrgId, api: Option<ApiId>, day: int)
    requires Rolled(table, log, day)
    ensures var lo, hi := day * DAY, (day + 1) * DAY;
            var requests := MeasureLog(log, Requests, org, api, lo, hi);
            var entry := EntryFor(table, org, api, day);
            && entry.day == day && entry.requests == requests
            && entry.errors == MeasureLog(log, Errors, org, api, lo, hi)
            && (requests == 0 ==> entry.averageLatency == 0.0)
            && (requests != 0 ==>
                  entry.averageLatency * requests as real == MeasureLog(log, Latency, org, api, lo, hi) as real)
  {
    SeriesIsCount(table, log, Requests, org, api, day);
    SeriesIsCount(table, log, Errors, org, api, day);
    SeriesIsCount(table, log, Latency, org, api, day);
  }

  /** Rolls up the days [lo, hi), one after the other. */
  function RollRange(table: Table, log: Log<Request>, lo: int, hi: int): Table
    requires lo <= hi
    decreases hi - lo
  {
    if lo == hi then table else RolledUp(RollRange(table, log, lo, hi - 1), log, hi - 1)
  }

  lemma {:induction false} RangeIsRolled(table: Table, log: Log<Request>, lo: int, hi: int, day: int)
    requires lo <= day < hi
    ensures Rolled(RollRange(table, log, lo, hi), log, day)
    decreases hi - lo
  {
    RolledUpIsRollup(RollRange(table, log, lo, hi - 1), log, hi - 1);
    if day < hi - 1 {
      RangeIsRolled(table, log, lo, hi - 1, day);
    }
  }

  /** The totals of the series entries of the days [lo, hi). */
  ghost function SeriesTotal(table: Table, column: Usage -> int, org: OrgId, api: Option<ApiId>, lo: int, hi: int): int
    requires lo <= hi
    decreases hi - lo
  {
    if lo == hi then 0
    else SeriesTotal(table, column, org, api, lo, hi - 1) + SeriesSum(table, column, org, api, hi - 1)
  }

  lemma {:induction false} CountSplits(log: Log<Request>, what: Measure, org: OrgId, api: Option<ApiId>, lo: int,
                                       mid: int, hi: int)
    requires lo <= mid <= hi
    ensures MeasureLog(log, what, org, api, lo, hi)
         == MeasureLog(log, what, org, api, lo, mid) + MeasureLog(log, what, org, api, mid, hi)
  {
    if log.More? {
      CountSplits(log.before, what, org, api, lo, mid, hi);
    }
  }

  lemma {:induction false} CountNothing(log: Log<Request>, what: Measure, org: OrgId, api: Option<ApiId>, lo: int)
    ensures MeasureLog(log, what, org, api, lo, lo) == 0
  {
    if log.More? {
      CountNothing(log.before, what, org, api, lo);
    }
  }

  lemma {:induction false} RolledTotalIsCount(table: Table, log: Log<Request>, what: Measure, org: OrgId,
                                              api: Option<ApiId>, lo: int, hi: int)
    requires lo <= hi && forall day | lo <= day < hi :: Rolled(table, log, day)
    ensures SeriesTotal(table, ColumnFor(what), org, api, lo, hi)
         == MeasureLog(log, what, org, api, lo * DAY, hi * DAY)
    decreases hi - lo
  {
    if lo == hi {
      CountNothing(log, what, org, api, lo * DAY);
    } else {
      RolledTotalIsCount(table, log, what, org, api, lo, hi - 1);
      SeriesIsCount(table, log, what, org, api, hi - 1);
      CountSplits(log, what, org, api, lo * DAY, (hi - 1) * DAY, hi * DAY);
    }
  }

  function EntryColumn(e: Entry, what: Measure): int
    requires what.Requests? || what.Errors?
  {
    if what.Errors? then e.errors else e.requests
  }

  /** The total the series reports. */
  function EntriesTotal(series: seq<Entry>, what: Measure): int
    requires what.Requests? || what.Errors?
  {
    if series == [] then 0
    else EntriesTotal(series[..|series| - 1], what) + EntryColumn(series[|series| - 1], what)
  }

  lemma NoRowNoSum(table: Table, what: Measure, org: OrgId, api: Option<ApiId>, day: int)
    requires !HasRow(table, org, api, day)
    ensures SeriesSum(table, ColumnFor(what), org, api, day) == 0
  {
    SumAgree(Column(table, ColumnFor(what)), map[], InScope(org, api, day));
  }

  lemma DaysOfInit(series: seq<Entry>)
    requires series != [] && forall i, j | 0 <= i < j < |series| :: series[i].day < series[j].day
    ensures DaysOf(series[..|series| - 1]) == DaysOf(series) - {series[|series| - 1].day}
    ensures series[|series| - 1].day in DaysOf(series)
  {
    var init := series[..|series| - 1];
    assert init + [series[|series| - 1]] == series;
    DaysGrow(init, series[|series| - 1]);
  }

  /** The entries of the days [lo, hi). */
  ghost predicate IsPart(series: seq<Entry>, table: Table, org: OrgId, api: Option<ApiId>, lo: int, hi: int) {
    && (forall i, j | 0 <= i < j < |series| :: series[i].day < series[j].day)
    && (forall day :: day in DaysOf(series) <==> lo <= day < hi && HasRow(table, org, api, day))
    && (forall i | 0 <= i < |series| :: series[i] == EntryFor(table, org, api, series[i].day))
  }

  lemma NoDayNoEntry(series: seq<Entry>)
    ensures series == [] || series[0].day in DaysOf(series)
  {
  }

  /** The last day has the last entry if it has a row. */
  lemma LastEntry(series: seq<Entry>, table: Table, org: OrgId, api: Option<ApiId>, lo: int, hi: int)
    requires lo < hi && IsPart(series, table, org, api, lo, hi) && HasRow(table, org, api, hi - 1)
    ensures series != [] && series[|series| - 1] == EntryFor(table, org, api, hi - 1)
    ensures IsPart(series[..|series| - 1], table, org, api, lo, hi - 1)
  {
    var i :| 0 <= i < |series| && series[i].day == hi - 1;
    DaysOfInit(series);
  }

  /** Days without a row have no entry and nothing to add. */
  lemma {:induction false} EntriesAddUp(
    series: seq<Entry>, table: Table, what: Measure, org: OrgId, api: Option<ApiId>, lo: int, hi: int)
    requires lo <= hi && IsPart(series, table, org, api, lo, hi) && (what.Requests? || what.Errors?)
    ensures EntriesTotal(series, what) == SeriesTotal(table, ColumnFor(what), org, api, lo, hi)
    decreases hi - lo
  {
    if lo == hi {
      NoDayNoEntry(series);
    } else if HasRow(table, org, api, hi - 1) {
      LastEntry(series, table, org, api, lo, hi);
      EntriesAddUp(series[..|series| - 1], table, what, org, api, lo, hi - 1);
    } else {
      NoRowNoSum(table, what, org, api, hi - 1);
      EntriesAddUp(series, table, what, org, api, lo, hi - 1);
    }
  }

  lemma {:induction false} RangeIsNoLater(table: Table, log: Log<Request>, lo: int, hi: int, most: int)
    requires lo <= hi <= most && forall k | k in table :: k.day < most
    ensures forall k | k in RollRange(table, log, lo, hi) :: k.day < most
    decreases hi - lo
  {
    if lo < hi {
      RangeIsNoLater(table, log, lo, hi - 1, most);
      RolledUpIsRollup(RollRange(table, log, lo, hi - 1), log, hi - 1);
    }
  }

  /** After rolling up each day of a range, from any prior contents without later days, the request
      and error totals of `daily_series` equal direct counts over the raw log. */
  lemma SeriesTotalIsCount(
    table: Table, log: Log<Request>, series: seq<Entry>, what: Measure, org: OrgId, api: Option<ApiId>,
    lo: int, hi: int)
    requires lo <= hi && (forall k | k in table :: k.day < hi) && (what.Requests? || what.Errors?)
    requires IsSeries(series, RollRange(table, log, lo, hi), org, api, lo)
    ensures EntriesTotal(series, what) == MeasureLog(log, what, org, api, lo * DAY, hi * DAY)
  {
    var after := RollRange(table, log, lo, hi);
    RangeIsNoLater(table, log, lo, hi, hi);
    EntriesAddUp(series, after, what, org, api, lo, hi);
    forall day | lo <= day < hi
      ensures Rolled(after, log, day)
    {
      RangeIsRolled(table, log, lo, hi, day);
    }
    RolledTotalIsCount(after, log, what, org, api, lo, hi);
  }
}
