/**
 * The downtime ledger and the errors table of the bot, kept as in-memory
 * tables: a sequence of rows per table and the next autoincrement id.
 * Timestamps are "YYYY-MM-DD HH:MM:SS" strings compared by code point;
 * workshop and unit keys are strings compared by equality. Every clock
 * reading the original takes itself is a parameter here: `today`
 * (the date part), the time part, `now` (a full timestamp) and
 * `ago(d)` (the full timestamp `d` days before now).
 */
module Database {
  import opened Wrappers
  import opened PyStr

  /** A row of `downtimes`; `endTime` is NULL while the downtime is open. */
  datatype Downtime = Downtime(id: nat, workshop: string, unit: string, startTime: string, endTime: Option<string>)

  /** A row of `errors`. */
  datatype ErrorEvent = ErrorEvent(id: nat, workshop: string, unit: string, time: string, info: string, author: string)

  /** A row of the active-downtimes query: `workshop_num, unit_num, start_time`. */
  datatype ActiveDowntime = ActiveDowntime(workshop: string, unit: string, startTime: string)

  /** A row of the report query: `workshop_num, unit_num, start_time, end_time`. */
  datatype ReportRow = ReportRow(workshop: string, unit: string, startTime: string, endTime: Option<string>)

  /** sqlite3.ProgrammingError for a statement given the wrong number of bound values. */
  datatype DbError = IncorrectBindings(placeholders: nat, supplied: nat)

  /** What `save_end_downtime` returns when no open downtime matches. */
  const NotFoundMessage := "Не найдено начальное время простоя"

  /** Separator between the two timestamps of a closed interval. */
  const IntervalSeparator := " - "

  /** Age, in days, past which `delete_old_downtimes` removes a downtime. */
  const PurgeAgeDays: nat := 30

  /** Number of `?` placeholders in the INSERT INTO errors statement. */
  const ErrorPlaceholders: nat := 5

  /** `datetime.now().strftime("%Y-%m-%d") + f" {time}"`. */
  function Timestamp(date: string, time: string): string {
    date + " " + time
  }

  /** Ids strictly increase along the table and lie in [1, next): AUTOINCREMENT never reuses an id. */
  predicate DowntimeIdsAscending(rows: seq<Downtime>, next: nat) {
    && (forall i, j :: 0 <= i < j < |rows| ==> rows[i].id < rows[j].id)
    && (forall i :: 0 <= i < |rows| ==> 0 < rows[i].id < next)
    && 0 < next
  }

  predicate ErrorIdsAscending(rows: seq<ErrorEvent>, next: nat) {
    && (forall i, j :: 0 <= i < j < |rows| ==> rows[i].id < rows[j].id)
    && (forall i :: 0 <= i < |rows| ==> 0 < rows[i].id < next)
    && 0 < next
  }

  /** `workshop_num=? AND unit_num=? AND end_time IS NULL`. */
  predicate OpenFor(row: Downtime, workshop: string, unit: string) {
    row.workshop == workshop && row.unit == unit && row.endTime.None?
  }

  /**
   * The position of the row `SELECT ... WHERE <OpenFor> ORDER BY id DESC LIMIT 1`
   * picks: the last matching open row of the table.
   */
  function LatestOpen(rows: seq<Downtime>, workshop: string, unit: string): (k: Option<nat>)
    ensures k.Some? ==> k.value < |rows| && OpenFor(rows[k.value], workshop, unit)
    ensures k.Some? ==> forall j :: k.value < j < |rows| ==> !OpenFor(rows[j], workshop, unit)
    ensures k.None? <==> forall j :: 0 <= j < |rows| ==> !OpenFor(rows[j], workshop, unit)
    decreases |rows|
  {
    if rows == [] then None
    else if OpenFor(rows[|rows| - 1], workshop, unit) then Some(|rows| - 1)
    else LatestOpen(rows[..|rows| - 1], workshop, unit)
  }

  /** The table after `save_end_downtime`, and the message it returns. */
  datatype Closing = Closing(rows: seq<Downtime>, message: string)

  /** The effect of `save_end_downtime`: close the latest open row for the key, or report that there is none. */
  function CloseLatest(rows: seq<Downtime>, workshop: string, unit: string, endStamp: string): Closing {
    match LatestOpen(rows, workshop, unit)
    case None => Closing(rows, NotFoundMessage)
    case Some(k) =>
      Closing(rows[k := rows[k].(endTime := Some(endStamp))], rows[k].startTime + IntervalSeparator + endStamp)
  }

  /** `DELETE FROM downtimes WHERE start_time < threshold`: keeps the other rows, in order. */
  function Purge(rows: seq<Downtime>, threshold: string): seq<Downtime>
    decreases |rows|
  {
    if rows == [] then []
    else (if Less(rows[0].startTime, threshold) then [] else [rows[0]]) + Purge(rows[1..], threshold)
  }

  function AsActive(row: Downtime): ActiveDowntime {
    ActiveDowntime(row.workshop, row.unit, row.startTime)
  }

  /** `SELECT workshop_num, unit_num, start_time FROM downtimes WHERE end_time IS NULL`. */
  function Active(rows: seq<Downtime>): seq<ActiveDowntime>
    decreases |rows|
  {
    if rows == [] then []
    else (if rows[0].endTime.None? then [AsActive(rows[0])] else []) + Active(rows[1..])
  }

  /** `datetime(t) BETWEEN datetime(since) AND datetime(now)`, both ends inclusive. */
  predicate Within(t: string, since: string, now: string) {
    !Less(t, since) && !Less(now, t)
  }

  /** The WHERE clause of the report: started in the window, or ended in it. */
  predicate InWindow(row: Downtime, since: string, now: string) {
    Within(row.startTime, since, now) || (row.endTime.Some? && Within(row.endTime.value, since, now))
  }

  function AsReportRow(row: Downtime): ReportRow {
    ReportRow(row.workshop, row.unit, row.startTime, row.endTime)
  }

  /** The report query over the window [since, now]. */
  function Report(rows: seq<Downtime>, since: string, now: string): seq<ReportRow>
    decreases |rows|
  {
    if rows == [] then []
    else (if InWindow(rows[0], since, now) then [AsReportRow(rows[0])] else []) + Report(rows[1..], since, now)
  }

  /** The length of the report window of `get_downtime_report`: a day, a week, thirty days, or none. */
  function WindowDays(period: string): (d: Option<nat>)
    ensures d.Some? <==> period in {"day", "week", "month"}
    ensures period == "day" ==> d == Some(1)
    ensures period == "week" ==> d == Some(7)
    ensures period == "month" ==> d == Some(30)
  {
    if period == "day" then Some(1)
    else if period == "week" then Some(7)
    else if period == "month" then Some(30)
    else None
  }

  /** `get_downtime_report(period)`: the rows touching the window ending at `now`, or `[]` for an unknown period. */
  function DowntimeReport(rows: seq<Downtime>, period: string, now: string, ago: nat -> string): seq<ReportRow> {
    match WindowDays(period)
    case None => []
    case Some(days) => Report(rows, ago(days), now)
  }

  /** The in-memory database: the two tables and the next id each AUTOINCREMENT column hands out. */
  class Store {
    var downtimes: seq<Downtime>
    var errors: seq<ErrorEvent>
    var nextDowntimeId: nat
    var nextErrorId: nat

    ghost predicate Valid()
      reads this
    {
      DowntimeIdsAscending(downtimes, nextDowntimeId) && ErrorIdsAscending(errors, nextErrorId)
    }

    /** `init_db()` on a fresh database file: both tables exist and are empty. */
    constructor ()
      ensures Valid()
      ensures downtimes == [] && errors == []
      ensures nextDowntimeId == 1 && nextErrorId == 1
    {
      downtimes, errors := [], [];
      nextDowntimeId, nextErrorId := 1, 1;
    }

    /** `save_start_downtime`: a new open row, stamped with today's date and the given time. */
    method SaveStartDowntime(workshop: string, unit: string, startTime: string, today: string)
      requires Valid()
      modifies this
      ensures Valid()
      ensures downtimes == old(downtimes) + [Downtime(old(nextDowntimeId), workshop, unit, Timestamp(today, startTime), None)]
      ensures nextDowntimeId == old(nextDowntimeId) + 1
      ensures errors == old(errors) && nextErrorId == old(nextErrorId)
    {
      var fullStartTime := Timestamp(today, startTime);
      AppendKeepsIdsAscending(downtimes, Downtime(nextDowntimeId, workshop, unit, fullStartTime, None), nextDowntimeId);
      downtimes := downtimes + [Downtime(nextDowntimeId, workshop, unit, fullStartTime, None)];
      nextDowntimeId := nextDowntimeId + 1;
    }

    /** `save_end_downtime`: closes the latest open row for the key and returns "start - end", or the not-found message. */
    method SaveEndDowntime(workshop: string, unit: string, endTime: string, today: string) returns (message: string)
      requires Valid()
      modifies this
      ensures Valid()
      ensures var c := CloseLatest(old(downtimes), workshop, unit, Timestamp(today, endTime));
              downtimes == c.rows && message == c.message
      ensures nextDowntimeId == old(nextDowntimeId)
      ensures errors == old(errors) && nextErrorId == old(nextErrorId)
    {
      var fullEndTime := Timestamp(today, endTime);
      var row := LatestOpen(downtimes, workshop, unit);
      if row.Some? {
        var k := row.value;
        var startTime := downtimes[k].startTime;
        downtimes := downtimes[k := downtimes[k].(endTime := Some(fullEndTime))];
        message := startTime + IntervalSeparator + fullEndTime;
      } else {
        message := NotFoundMessage;
      }
    }

    /** `delete_old_downtimes`: drops every downtime that started more than thirty days ago. */
    method DeleteOldDowntimes(ago: nat -> string)
      requires Valid()
      modifies this
      ensures Valid()
      ensures downtimes == Purge(old(downtimes), ago(PurgeAgeDays))
      ensures nextDowntimeId == old(nextDowntimeId)
      ensures errors == old(errors) && nextErrorId == old(nextErrorId)
    {
      var oneMonthAgo := ago(PurgeAgeDays);
      PurgeKeepsIdsAscending(downtimes, oneMonthAgo, nextDowntimeId);
      downtimes := Purge(downtimes, oneMonthAgo);
    }

    /** `get_downtime_report(period)`. */
    method GetDowntimeReport(period: string, now: string, ago: nat -> string) returns (report: seq<ReportRow>)
      ensures WindowDays(period).None? ==> report == []
      ensures WindowDays(period).Some? ==> report == Report(downtimes, ago(WindowDays(period).value), now)
    {
      report := DowntimeReport(downtimes, period, now, ago);
    }

    /** `get_active_downtimes()`. */
    method GetActiveDowntimes() returns (active: seq<ActiveDowntime>)
      ensures active == Active(downtimes)
    {
      active := Active(downtimes);
    }

    /**
     * `cursor.execute("INSERT INTO errors (...) VALUES (?, ?, ?, ?, ?)", values)`:
     * sqlite3 refuses a tuple whose length differs from the placeholder count,
     * and the `with` block then leaves the table as it was.
     */
    method InsertError(values: seq<string>) returns (outcome: Outcome<DbError>)
      requires Valid()
      modifies this
      ensures Valid()
      ensures |values| == ErrorPlaceholders ==>
                outcome == Pass &&
                errors == old(errors) + [ErrorEvent(old(nextErrorId), values[0], values[1], values[2], values[3], values[4])] &&
                nextErrorId == old(nextErrorId) + 1
      ensures |values| != ErrorPlaceholders ==>
                outcome == Fail(IncorrectBindings(ErrorPlaceholders, |values|)) &&
                errors == old(errors) && nextErrorId == old(nextErrorId)
      ensures downtimes == old(downtimes) && nextDowntimeId == old(nextDowntimeId)
    {
      if |values| != ErrorPlaceholders {
        return Fail(IncorrectBindings(ErrorPlaceholders, |values|));
      }
      var row := ErrorEvent(nextErrorId, values[0], values[1], values[2], values[3], values[4]);
      assert forall i :: 0 <= i < |errors| ==> errors[i].id < row.id;
      errors := errors + [row];
      nextErrorId := nextErrorId + 1;
      outcome := Pass;
    }

    /** `save_breakdown`: one error row holding all five fields. */
    method SaveBreakdown(workshop: string, unit: string, time: string, info: string, author: string)
      returns (outcome: Outcome<DbError>)
      requires Valid()
      modifies this
      ensures Valid()
      ensures outcome == Pass
      ensures errors == old(errors) + [ErrorEvent(old(nextErrorId), workshop, unit, time, info, author)]
      ensures nextErrorId == old(nextErrorId) + 1
      ensures downtimes == old(downtimes) && nextDowntimeId == old(nextDowntimeId)
    {
      outcome := InsertError([workshop, unit, time, info, author]);
    }

    /** `save_error_data`: binds four values to the five placeholders, so the insert always fails. */
    method SaveErrorData(workshop: string, unit: string, time: string, info: string)
      returns (outcome: Outcome<DbError>)
      requires Valid()
      modifies this
      ensures Valid()
      ensures outcome == Fail(IncorrectBindings(5, 4))
      ensures errors == old(errors) && nextErrorId == old(nextErrorId)
      ensures downtimes == old(downtimes) && nextDowntimeId == old(nextDowntimeId)
    {
      outcome := InsertError([workshop, unit, time, info]);
    }
  }

  /** Appending a row with the counter's id keeps ids ascending under the incremented counter. */
  lemma AppendKeepsIdsAscending(rows: seq<Downtime>, row: Downtime, next: nat)
    requires DowntimeIdsAscending(rows, next) && row.id == next && next > 0
    ensures DowntimeIdsAscending(rows + [row], next + 1)
  {
    assert forall i :: 0 <= i < |rows| ==> rows[i].id < row.id;
  }

  // ---------------------------------------------------------------------------
  // Closing a downtime

  /**
   * When an open row matches, `save_end_downtime` closes the matching open row
   * with the largest id, changes no other row and no other column, and reports
   * "start - end".
   */
  lemma CloseLatestClosesNewestOpen(rows: seq<Downtime>, next: nat, workshop: string, unit: string, endStamp: string, k: nat)
    requires DowntimeIdsAscending(rows, next)
    requires LatestOpen(rows, workshop, unit) == Some(k)
    ensures forall j :: 0 <= j < |rows| && OpenFor(rows[j], workshop, unit) ==> rows[j].id <= rows[k].id
    ensures var c := CloseLatest(rows, workshop, unit, endStamp);
            && |c.rows| == |rows|
            && c.rows[k] == rows[k].(endTime := Some(endStamp))
            && (forall j :: 0 <= j < |rows| && j != k ==> c.rows[j] == rows[j])
            && c.message == rows[k].startTime + IntervalSeparator + endStamp
  {
    forall j | 0 <= j < |rows| && OpenFor(rows[j], workshop, unit)
      ensures rows[j].id <= rows[k].id
    {
      assert j <= k;
    }
  }

  /** The not-found message cannot be mistaken for an interval: it holds no '-'. */
  lemma NotFoundIsNoInterval(a: string, b: string)
    ensures a + IntervalSeparator + b != NotFoundMessage
  {
    var s := a + IntervalSeparator + b;
    assert s[|a| + 1] == '-';
    assert forall i | 0 <= i < |NotFoundMessage| :: NotFoundMessage[i] != '-';
  }

  /**
   * `save_end_downtime` returns the not-found message exactly when no open row
   * matches the key, and then it leaves the table as it was.
   */
  lemma CloseLatestNotFound(rows: seq<Downtime>, workshop: string, unit: string, endStamp: string)
    ensures var c := CloseLatest(rows, workshop, unit, endStamp);
            (c.message == NotFoundMessage <==> forall j :: 0 <= j < |rows| ==> !OpenFor(rows[j], workshop, unit))
    ensures var c := CloseLatest(rows, workshop, unit, endStamp);
            c.message == NotFoundMessage ==> c.rows == rows
  {
    match LatestOpen(rows, workshop, unit)
    case None =>
    case Some(k) => NotFoundIsNoInterval(rows[k].startTime, endStamp);
  }

  /** Closing changes an end time only, so ids stay ascending. */
  lemma CloseLatestKeepsIdsAscending(rows: seq<Downtime>, next: nat, workshop: string, unit: string, endStamp: string)
    requires DowntimeIdsAscending(rows, next)
    ensures DowntimeIdsAscending(CloseLatest(rows, workshop, unit, endStamp).rows, next)
  {
  }

  /**
   * Last start wins: after two starts for the same key and one end, the newer
   * row is closed and the older stays open.
   */
  lemma LastStartWins(rows: seq<Downtime>, next: nat, workshop: string, unit: string, first: string, second: string, endStamp: string)
    requires DowntimeIdsAscending(rows, next)
    ensures var started := rows + [Downtime(next, workshop, unit, first, None), Downtime(next + 1, workshop, unit, second, None)];
            CloseLatest(started, workshop, unit, endStamp) ==
              Closing(rows + [Downtime(next, workshop, unit, first, None), Downtime(next + 1, workshop, unit, second, Some(endStamp))],
                      second + IntervalSeparator + endStamp)
  {
    var started := rows + [Downtime(next, workshop, unit, first, None), Downtime(next + 1, workshop, unit, second, None)];
    var n := |started| - 1;
    assert started[n] == Downtime(next + 1, workshop, unit, second, None);
    assert LatestOpen(started, workshop, unit) == Some(n);
    assert started[n := started[n].(endTime := Some(endStamp))] ==
           rows + [Downtime(next, workshop, unit, first, None), Downtime(next + 1, workshop, unit, second, Some(endStamp))];
  }

  /** A start at `date1 time1` followed by an end at `date2 time2` for the same key yields "date1 time1 - date2 time2". */
  lemma StartThenEnd(rows: seq<Downtime>, id: nat, workshop: string, unit: string, date1: string, time1: string, date2: string, time2: string)
    ensures CloseLatest(rows + [Downtime(id, workshop, unit, Timestamp(date1, time1), None)], workshop, unit, Timestamp(date2, time2)).message
            == date1 + " " + time1 + " - " + date2 + " " + time2
  {
    var started := rows + [Downtime(id, workshop, unit, Timestamp(date1, time1), None)];
    assert LatestOpen(started, workshop, unit) == Some(|rows|);
  }

  // ---------------------------------------------------------------------------
  // Purging

  /** A row survives the purge exactly when it does not start before the threshold, whatever its end time. */
  lemma {:induction false} PurgeMembers(rows: seq<Downtime>, threshold: string)
    ensures forall x :: x in Purge(rows, threshold) <==> x in rows && !Less(x.startTime, threshold)
    decreases |rows|
  {
    if rows != [] {
      PurgeMembers(rows[1..], threshold);
      assert forall x :: x in rows <==> x == rows[0] || x in rows[1..];
    }
  }

  /** The purge filters row by row: it distributes over concatenation, so survivors keep their order. */
  lemma {:induction false} PurgeAppend(a: seq<Downtime>, b: seq<Downtime>, threshold: string)
    ensures Purge(a + b, threshold) == Purge(a, threshold) + Purge(b, threshold)
    decreases |a|
  {
    if a == [] {
      assert a + b == b;
    } else {
      var head := if Less(a[0].startTime, threshold) then [] else [a[0]];
      assert (a + b)[0] == a[0];
      assert (a + b)[1..] == a[1..] + b;
      assert Purge(a + b, threshold) == head + Purge(a[1..] + b, threshold);
      PurgeAppend(a[1..], b, threshold);
      assert Purge(a, threshold) == head + Purge(a[1..], threshold);
    }
  }

  /** A row whose id is below every id of an ascending table, and above zero, can go in front of it. */
  lemma ConsIdsAscending(row: Downtime, rows: seq<Downtime>, next: nat)
    requires DowntimeIdsAscending(rows, next) && 0 < row.id < next
    requires forall j :: 0 <= j < |rows| ==> row.id < rows[j].id
    ensures DowntimeIdsAscending([row] + rows, next)
  {
    var r := [row] + rows;
    forall i, j | 0 <= i < j < |r| ensures r[i].id < r[j].id {
      assert r[j] == rows[j - 1];
      if 0 < i {
        assert r[i] == rows[i - 1];
      }
    }
  }

  /** Purging keeps ids ascending and below the counter, so the table stays well formed. */
  lemma {:induction false} PurgeKeepsIdsAscending(rows: seq<Downtime>, threshold: string, next: nat)
    requires DowntimeIdsAscending(rows, next)
    ensures DowntimeIdsAscending(Purge(rows, threshold), next)
    decreases |rows|
  {
    if rows != [] {
      var tail := rows[1..];
      assert DowntimeIdsAscending(tail, next);
      PurgeKeepsIdsAscending(tail, threshold, next);
      var rest := Purge(tail, threshold);
      if Less(rows[0].startTime, threshold) {
        assert Purge(rows, threshold) == rest;
      } else {
        assert Purge(rows, threshold) == [rows[0]] + rest;
        PurgeMembers(tail, threshold);
        forall j | 0 <= j < |rest| ensures rows[0].id < rest[j].id {
          assert rest[j] in tail;
        }
        ConsIdsAscending(rows[0], rest, next);
      }
    }
  }

  /** Purging twice with the same threshold removes nothing more. */
  lemma {:induction false} PurgeIdempotent(rows: seq<Downtime>, threshold: string)
    ensures Purge(Purge(rows, threshold), threshold) == Purge(rows, threshold)
    decreases |rows|
  {
    if rows != [] {
      var rest := Purge(rows[1..], threshold);
      PurgeIdempotent(rows[1..], threshold);
      if !Less(rows[0].startTime, threshold) {
        var kept := [rows[0]] + rest;
        assert kept[0] == rows[0] && kept[1..] == rest;
        assert Purge(kept, threshold) == [rows[0]] + Purge(rest, threshold);
      } else {
        assert Purge(rows, threshold) == rest;
      }
    }
  }

  /** A timestamp not before `newer` is not before any `older` that `newer` is not before. */
  lemma LessNotBelow(t: string, newer: string, older: string)
    requires !Less(t, newer) && !Less(newer, older)
    ensures !Less(t, older)
  {
    LessTotal(t, newer);
    LessTotal(newer, older);
    if t != newer && newer != older {
      LessTransitive(older, newer, t);
      LessAsymmetric(older, t);
    } else if t != newer {
      LessAsymmetric(older, t);
    } else if newer != older {
      LessAsymmetric(older, newer);
    }
  }

  /** A purge with an older threshold after one with a newer threshold removes nothing more. */
  lemma {:induction false} PurgeOlderAfterNewer(rows: seq<Downtime>, older: string, newer: string)
    requires !Less(newer, older)
    ensures Purge(Purge(rows, newer), older) == Purge(rows, newer)
    decreases |rows|
  {
    if rows != [] {
      var rest := Purge(rows[1..], newer);
      PurgeOlderAfterNewer(rows[1..], older, newer);
      if !Less(rows[0].startTime, newer) {
        LessNotBelow(rows[0].startTime, newer, older);
        var kept := [rows[0]] + rest;
        assert kept[0] == rows[0] && kept[1..] == rest;
        assert Purge(kept, older) == [rows[0]] + Purge(rest, older);
      } else {
        assert Purge(rows, newer) == rest;
      }
    }
  }

  // ---------------------------------------------------------------------------
  // Read-only queries

  /** An open row is listed as active, and every listed entry comes from an open row. */
  lemma {:induction false} ActiveMembers(rows: seq<Downtime>)
    ensures forall x :: x in rows && x.endTime.None? ==> AsActive(x) in Active(rows)
    ensures forall y :: y in Active(rows) ==> exists x :: x in rows && x.endTime.None? && AsActive(x) == y
    decreases |rows|
  {
    if rows != [] {
      ActiveMembers(rows[1..]);
      assert forall x :: x in rows ==> x == rows[0] || x in rows[1..];
    }
  }

  /** A row is in the report exactly when it started or ended within [since, now]. */
  lemma {:induction false} ReportMembers(rows: seq<Downtime>, since: string, now: string)
    ensures forall x :: x in rows && InWindow(x, since, now) ==> AsReportRow(x) in Report(rows, since, now)
    ensures forall y :: y in Report(rows, since, now) ==> exists x :: x in rows && InWindow(x, since, now) && AsReportRow(x) == y
    decreases |rows|
  {
    if rows != [] {
      ReportMembers(rows[1..], since, now);
      assert forall x :: x in rows ==> x == rows[0] || x in rows[1..];
    }
  }

  /** The active list follows table order: it distributes over concatenation. */
  lemma {:induction false} ActiveAppend(a: seq<Downtime>, b: seq<Downtime>)
    ensures Active(a + b) == Active(a) + Active(b)
    decreases |a|
  {
    if a == [] {
      assert a + b == b;
    } else {
      var head := if a[0].endTime.None? then [AsActive(a[0])] else [];
      assert (a + b)[0] == a[0];
      assert (a + b)[1..] == a[1..] + b;
      assert Active(a + b) == head + Active(a[1..] + b);
      ActiveAppend(a[1..], b);
      assert Active(a) == head + Active(a[1..]);
    }
  }

  /** The report follows table order: it distributes over concatenation. */
  lemma {:induction false} ReportAppend(a: seq<Downtime>, b: seq<Downtime>, since: string, now: string)
    ensures Report(a + b, since, now) == Report(a, since, now) + Report(b, since, now)
    decreases |a|
  {
    if a == [] {
      assert a + b == b;
    } else {
      var head := if InWindow(a[0], since, now) then [AsReportRow(a[0])] else [];
      assert (a + b)[0] == a[0];
      assert (a + b)[1..] == a[1..] + b;
      assert Report(a + b, since, now) == head + Report(a[1..] + b, since, now);
      ReportAppend(a[1..], b, since, now);
      assert Report(a, since, now) == head + Report(a[1..], since, now);
    }
  }

  /** A new start is active until it is closed. */
  lemma StartIsActive(rows: seq<Downtime>, id: nat, workshop: string, unit: string, stamp: string)
    ensures Active(rows + [Downtime(id, workshop, unit, stamp, None)]) == Active(rows) + [ActiveDowntime(workshop, unit, stamp)]
  {
    ActiveAppend(rows, [Downtime(id, workshop, unit, stamp, None)]);
  }

  /** The active list of a table split around one row. */
  lemma ActiveAround(before: seq<Downtime>, row: Downtime, after: seq<Downtime>)
    ensures Active(before + [row] + after) ==
            Active(before) + (if row.endTime.None? then [AsActive(row)] else []) + Active(after)
  {
    assert [row][1..] == [];
    ActiveAppend(before + [row], after);
    ActiveAppend(before, [row]);
  }

  /** The closed table, cut around the row that was closed. */
  lemma CloseLatestAround(rows: seq<Downtime>, workshop: string, unit: string, endStamp: string, k: nat)
    requires LatestOpen(rows, workshop, unit) == Some(k)
    ensures rows == rows[..k] + [rows[k]] + rows[k + 1..]
    ensures CloseLatest(rows, workshop, unit, endStamp).rows ==
            rows[..k] + [rows[k].(endTime := Some(endStamp))] + rows[k + 1..]
  {
  }

  /** Closing the latest open row for a key removes exactly its entry from the active list. */
  lemma CloseRemovesFromActive(rows: seq<Downtime>, workshop: string, unit: string, endStamp: string, k: nat)
    requires LatestOpen(rows, workshop, unit) == Some(k)
    ensures Active(rows) == Active(rows[..k]) + [AsActive(rows[k])] + Active(rows[k + 1..])
    ensures Active(CloseLatest(rows, workshop, unit, endStamp).rows) == Active(rows[..k]) + Active(rows[k + 1..])
  {
    CloseLatestAround(rows, workshop, unit, endStamp, k);
    CloseRowAround(rows[..k], rows[k], rows[k + 1..], endStamp);
  }

  /** Closing an open row between two parts of a table drops its entry from the active list. */
  lemma CloseRowAround(before: seq<Downtime>, row: Downtime, after: seq<Downtime>, endStamp: string)
    requires row.endTime.None?
    ensures Active(before + [row] + after) == Active(before) + [AsActive(row)] + Active(after)
    ensures Active(before + [row.(endTime := Some(endStamp))] + after) == Active(before) + Active(after)
  {
    ActiveAround(before, row, after);
    ActiveAround(before, row.(endTime := Some(endStamp)), after);
  }
}
