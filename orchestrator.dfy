/**
 * `main` of main.py: connect to the services, compute the window, fetch the
 * report, format it, ensure the table exists and replace the window's rows.
 * One catch-all handler reports the first exception to the chat channel.
 * Everything outside the program is an input of `World`: the clock, the
 * report service, the warehouse's reading of timestamps and the failures of
 * each service call.
 */
module Orchestrator {
  import opened Wrappers
  import opened Records
  import opened Schema
  import opened Formatting
  import opened Window
  import opened Warehouse

  /** The stages inside the `try` block after the three clients exist, in program order. */
  datatype Stage = Fetch | Format | EnsureTable | Update

  const STAGES: seq<Stage> := [Fetch, Format, EnsureTable, Update]

  /** A `send_message(channel, message)` call. */
  datatype Message = Message(channel: string, text: string)

  /** What the outside world answers during one run. */
  datatype World = World(
    today: int,                                   // the day `datetime.now()` falls on
    dayText: int -> string,                       // `strftime('%Y-%m-%d')` of a day
    report: string -> Result<seq<RawEntry>>,      // one detailed-report request for a date
    instant: string -> Option<int>,               // the warehouse's `TIMESTAMP('...')`
    errorStamp: string,                           // the handler's `strftime('%Y-%m-%d %H:%M:%S')`
    tableId: string,                              // BQ_TABLE_ID
    togglFault: Option<Error>,                    // `Toggl(...)`: the workspace lookup
    clientFault: Option<Error>,                   // `BigQuery(...)`: `Client()`
    getFault: Option<Error>,
    createFault: Option<Error>,
    deleteFault: Option<Error>,
    insertFault: Option<Error>,
    sendFault: Option<Error>)                     // the chat post itself

  /**
   * How a run ends: the stages it entered, the exception the handler caught,
   * the `send_message` calls it made (recorded whether or not the chat
   * service accepted the post) and the exception that escapes `main`, if any.
   */
  datatype Outcome = Outcome(
    started: seq<Stage>,
    failure: Option<Error>,
    sends: seq<Message>,
    raised: Option<Error>)

  /** The handler reads `slack` before it was ever assigned. */
  const UNBOUND_SLACK: Error := Error("UnboundLocalError", "slack")

  // ---------------------------------------------------------------- the error message

  predicate NoTrailingNewline(s: string)
  {
    s == [] || s[|s| - 1] != '\n'
  }

  /** `format_exception_only(type(e), e)[0]`: the type, then `: ` and the text when there is one. */
  function Summary(e: Error): (r: string)
    ensures |r| > |e.kind| && r[..|e.kind|] == e.kind && r[|r| - 1] == '\n'
    ensures e.detail != "" ==> |r| > |e.kind| + 2 && r[|e.kind|..|e.kind| + 2] == ": "
  {
    if e.detail == "" then e.kind + "\n" else e.kind + ": " + e.detail + "\n"
  }

  /** `s.rstrip('\n')` */
  function RStripNewlines(s: string): (r: string)
    ensures r <= s && NoTrailingNewline(r)
    ensures forall k :: |r| <= k < |s| ==> s[k] == '\n'
  {
    if s != [] && s[|s| - 1] == '\n' then RStripNewlines(s[..|s| - 1]) else s
  }

  /** `'{} {}'.format(error_timestamp, error_summary)` */
  function ErrorMessage(stamp: string, e: Error): (r: string)
    ensures |r| > |stamp| && r[..|stamp| + 1] == stamp + " " && NoTrailingNewline(r)
  {
    stamp + " " + RStripNewlines(Summary(e))
  }

  /** Stripping only removes newlines from the end: text that does not end in one is kept whole. */
  lemma {:induction false} RStripKeeps(s: string, n: nat)
    requires NoTrailingNewline(s)
    ensures RStripNewlines(s + seq(n, _ => '\n')) == s
  {
    var t := s + seq(n, _ => '\n');
    if n > 0 {
      assert t[..|t| - 1] == s + seq(n - 1, _ => '\n');
      RStripKeeps(s, n - 1);
    } else {
      assert t == s;
    }
  }

  /** The posted text is the timestamp, a space, the exception's type and, when it has one, `: ` and its text. */
  lemma MessageOf(stamp: string, e: Error)
    requires NoTrailingNewline(e.kind) && NoTrailingNewline(e.detail)
    ensures ErrorMessage(stamp, e) == stamp + " " + e.kind + (if e.detail == "" then "" else ": " + e.detail)
  {
    SummaryStripped(e);
    if e.detail != "" {
      assert stamp + " " + (e.kind + ": " + e.detail) == stamp + " " + e.kind + (": " + e.detail);
    }
  }

  /** The summary without its newline is the type, then `: ` and the text when there is one. */
  lemma SummaryStripped(e: Error)
    requires NoTrailingNewline(e.kind) && NoTrailingNewline(e.detail)
    ensures RStripNewlines(Summary(e)) == if e.detail == "" then e.kind else e.kind + ": " + e.detail
  {
    var body := if e.detail == "" then e.kind else e.kind + ": " + e.detail;
    assert Summary(e) == body + seq(1, _ => '\n');
    RStripKeeps(body, 1);
  }

  // ---------------------------------------------------------------- the report

  /** `get_detailed_report(target_dates)`: one request per date, the entries concatenated in date order. */
  function FetchSpec(dates: seq<string>, report: string -> Result<seq<RawEntry>>): (r: Result<seq<RawEntry>>)
    ensures r.Success? <==> forall k :: 0 <= k < |dates| ==> report(dates[k]).Success?
  {
    if dates == [] then Success([])
    else
      var head := report(dates[0]);
      var rest := FetchSpec(dates[1..], report);
      if head.Failure? then Failure(head.error)
      else if rest.Failure? then rest
      else
        assert forall k :: 0 < k < |dates| ==> dates[k] == dates[1..][k - 1];
        Success(head.value + rest.value)
  }

  /** The loop's view: fetching one more date appends that date's entries after those already fetched. */
  lemma {:induction false} FetchOneMore(dates: seq<string>, d: string, report: string -> Result<seq<RawEntry>>)
    requires FetchSpec(dates, report).Success? && report(d).Success?
    ensures FetchSpec(dates + [d], report) == Success(FetchSpec(dates, report).value + report(d).value)
  {
    if dates == [] {
      assert dates + [d] == [d] && [d][1..] == [];
      assert FetchSpec([d][1..], report) == Success([]);
      assert report(d).value + [] == [] + report(d).value;
    } else {
      var tail := dates[1..];
      assert forall k :: 0 <= k < |tail| ==> tail[k] == dates[k + 1];
      assert (dates + [d])[0] == dates[0] && (dates + [d])[1..] == tail + [d];
      FetchOneMore(tail, d, report);
      var head := report(dates[0]).value;
      assert FetchSpec(dates, report).value == head + FetchSpec(tail, report).value;
      assert head + (FetchSpec(tail, report).value + report(d).value)
          == (head + FetchSpec(tail, report).value) + report(d).value;
    }
  }

  // ---------------------------------------------------------------- the run

  /** The gateway `main` builds. */
  function GatewayConfig(tableId: string): Config
  {
    Config(tableId, BQ_TABLE_SCHEMA, Some(TIME_PARTITIONING_FIELD), Some(CLUSTERING_FIELDS))
  }

  /** The `except` block after `slack` exists: one message to the error channel. */
  function Handled(w: World, started: seq<Stage>, e: Error): (r: Outcome)
    ensures r.started == started && r.failure == Some(e) && r.raised == w.sendFault
    ensures |r.sends| == 1 && r.sends[0].channel == TARGET_SLACK_CHANNEL
    ensures r.sends[0].text == ErrorMessage(w.errorStamp, e)
  {
    Outcome(started, Some(e), [Message(TARGET_SLACK_CHANNEL, ErrorMessage(w.errorStamp, e))], w.sendFault)
  }

  /**
   * The table and the outcome after one run of `main`.  `format` is the
   * formatter the run applies to the report; `Run` uses `FormatSpec`, and the
   * properties below hold whatever the formatter does.
   */
  function RunSpec(w: World, t: TableState, format: seq<RawEntry> -> Result<Formatted>): (r: (TableState, Outcome))
    requires WellFormed(t)
    ensures WellFormed(r.0)
  {
    if w.togglFault.Some? then (t, Outcome([], w.togglFault, [], Some(UNBOUND_SLACK)))
    else if w.clientFault.Some? then (t, Outcome([], w.clientFault, [], Some(UNBOUND_SLACK)))
    else
      var dates := TargetDates(w.today, w.dayText);
      var fetched := FetchSpec(dates, w.report);
      if fetched.Failure? then (t, Handled(w, [Fetch], fetched.error))
      else
        var formatted := format(fetched.value);
        if formatted.Failure? then (t, Handled(w, [Fetch, Format], formatted.error))
        else
          var cfg := GatewayConfig(w.tableId);
          var (t1, e1) := CreateSpec(cfg, t, w.getFault, w.createFault);
          if e1.Some? then (t1, Handled(w, [Fetch, Format, EnsureTable], e1.value))
          else
            var (t2, e2) := UpdateSpec(cfg, t1, formatted.value.rows, StartBound(StartDate(w.today, w.dayText)),
                                       EndBound(EndDate(w.today, w.dayText)), TIMESTAMP_COL, w.instant,
                                       w.deleteFault, w.insertFault);
            if e2.Some? then (t2, Handled(w, STAGES, e2.value))
            else (t2, Outcome(STAGES, None, [], None))
  }

  /** `main()`, acting on the warehouse table `table`. */
  method Run(w: World, table: Table) returns (out: Outcome)
    requires table.Valid()
    modifies table
    ensures table.Valid()
    ensures (table.State(), out) == RunSpec(w, old(table.State()), FormatSpec)
  {
    if w.togglFault.Some? {
      return Outcome([], w.togglFault, [], Some(UNBOUND_SLACK));
    }
    if w.clientFault.Some? {
      return Outcome([], w.clientFault, [], Some(UNBOUND_SLACK));
    }
    var bq := new BigQuery(w.tableId, BQ_TABLE_SCHEMA, Some(TIME_PARTITIONING_FIELD), Some(CLUSTERING_FIELDS), table);

    var dates := TargetDates(w.today, w.dayText);
    var startDate, endDate := StartDate(w.today, w.dayText), EndDate(w.today, w.dayText);

    var fetched := FetchSpec(dates, w.report);
    if fetched.Failure? {
      return Handled(w, [Fetch], fetched.error);
    }
    var formatted := GetFormattedDataframe(fetched.value);
    if formatted.Failure? {
      return Handled(w, [Fetch, Format], formatted.error);
    }
    var e1 := bq.CreateTableIfNotExists(w.getFault, w.createFault);
    if e1.Some? {
      return Handled(w, [Fetch, Format, EnsureTable], e1.value);
    }
    var e2 := bq.Update(formatted.value.rows, StartBound(startDate), EndBound(endDate), TIMESTAMP_COL,
                        w.instant, w.deleteFault, w.insertFault);
    if e2.Some? {
      return Handled(w, STAGES, e2.value);
    }
    out := Outcome(STAGES, None, [], None);
  }

  // ---------------------------------------------------------------- properties

  /**
   * The stages run in program order and a failure skips all later ones: the
   * entered stages are a prefix of fetch, format, ensure table, update, and
   * a run without failure enters all four and posts nothing.
   */
  lemma StagesInOrder(w: World, t: TableState, format: seq<RawEntry> -> Result<Formatted>)
    requires WellFormed(t)
    ensures RunSpec(w, t, format).1.started <= STAGES
    ensures RunSpec(w, t, format).1.failure.None? ==>
      RunSpec(w, t, format).1.started == STAGES && RunSpec(w, t, format).1.sends == [] && RunSpec(w, t, format).1.raised.None?
  {
  }

  /**
   * A failure once the clients exist is reported by exactly one message on
   * the error channel, built from the handler's timestamp and the exception;
   * only a failing post lets an exception escape.
   */
  lemma FailureReportedOnce(w: World, t: TableState, format: seq<RawEntry> -> Result<Formatted>)
    requires WellFormed(t)
    ensures
      var out := RunSpec(w, t, format).1;
      out.failure.Some? && out.started != [] ==>
        && out.sends == [Message("error", ErrorMessage(w.errorStamp, out.failure.value))]
        && out.raised == w.sendFault
  {
    if w.togglFault.None? && w.clientFault.None? {
      var out := RunSpec(w, t, format).1;
      var dates := TargetDates(w.today, w.dayText);
      var fetched := FetchSpec(dates, w.report);
      if fetched.Failure? {
        assert out == Handled(w, [Fetch], fetched.error);
      } else if format(fetched.value).Failure? {
        assert out == Handled(w, [Fetch, Format], format(fetched.value).error);
      } else {
        var cfg := GatewayConfig(w.tableId);
        var (t1, e1) := CreateSpec(cfg, t, w.getFault, w.createFault);
        if e1.Some? {
          assert out == Handled(w, [Fetch, Format, EnsureTable], e1.value);
        } else {
          var (t2, e2) := UpdateSpec(cfg, t1, format(fetched.value).value.rows, StartBound(StartDate(w.today, w.dayText)),
                                     EndBound(EndDate(w.today, w.dayText)), TIMESTAMP_COL, w.instant,
                                     w.deleteFault, w.insertFault);
          if e2.Some? {
            assert out == Handled(w, STAGES, e2.value);
          } else {
            assert out.failure.None?;
          }
        }
      }
    }
  }

  /** A failure while the clients are built happens before `slack` exists: nothing is sent and the handler itself raises. */
  lemma EarlyFailureIsSilent(w: World, t: TableState, format: seq<RawEntry> -> Result<Formatted>)
    requires WellFormed(t)
    ensures RunSpec(w, t, format).1.started == [] <==> w.togglFault.Some? || w.clientFault.Some?
    ensures RunSpec(w, t, format).1.started == [] ==>
      && RunSpec(w, t, format).1.failure.Some?
      && RunSpec(w, t, format).1.sends == []
      && RunSpec(w, t, format).1.raised == Some(UNBOUND_SLACK)
      && RunSpec(w, t, format).0 == t
  {
  }

  /** The table is not touched before the ensure-table stage is entered. */
  lemma TableUntouchedBeforeEnsure(w: World, t: TableState, format: seq<RawEntry> -> Result<Formatted>)
    requires WellFormed(t)
    ensures EnsureTable !in RunSpec(w, t, format).1.started ==> RunSpec(w, t, format).0 == t
  {
  }

  /**
   * A completed run replaces the window: when `instant` reads the bounds the
   * way `dayText` wrote the dates, the table holds its earlier rows whose
   * `start` is not on one of the target days, in order, followed by the
   * formatted rows of the report; the table is then a partitioned, clustered
   * table or the one that was there before.
   */
  lemma CompletedRunReplacesWindow(w: World, t: TableState, format: seq<RawEntry> -> Result<Formatted>, parseDate: string -> Option<int>)
    requires WellFormed(t)
    requires forall d :: parseDate(w.dayText(d)) == Some(d)
    requires forall s :: w.instant(s) == ParseBound(s, parseDate)
    requires RunSpec(w, t, format).1.failure.None?
    ensures
      var lo := (w.today - (ROLLBACK_DAYS - 1)) * DAY_SECONDS;
      var hi := w.today * DAY_SECONDS + DAY_SECONDS - 1;
      var records := FetchSpec(TargetDates(w.today, w.dayText), w.report).value;
      && FetchSpec(TargetDates(w.today, w.dayText), w.report).Success?
      && format(records).Success?
      && RunSpec(w, t, format).0.rows == Outside(t.rows, "start", lo, hi) + format(records).value.rows
      && (forall x :: InWindow(x, "start", lo, hi) <==> x.start.Some? && DayOf(x.start.value) in TargetDays(w.today))
  {
    var lo := (w.today - (ROLLBACK_DAYS - 1)) * DAY_SECONDS;
    var hi := w.today * DAY_SECONDS + DAY_SECONDS - 1;
    var dates := TargetDates(w.today, w.dayText);
    CompletedRunUpdates(w, t, format);
    WindowSelectsTargetDays(w.today, w.dayText, parseDate, 0);
    assert StartDate(w.today, w.dayText) == dates[0] && EndDate(w.today, w.dayText) == dates[ROLLBACK_DAYS - 1];
    assert w.instant(StartBound(StartDate(w.today, w.dayText))) == Some(lo);
    assert w.instant(EndBound(EndDate(w.today, w.dayText))) == Some(hi);
    WindowRowsOnTargetDays(w.today, w.dayText, parseDate);
  }

  /** A completed run is the table step followed by a completed update over the window's bounds. */
  lemma CompletedRunUpdates(w: World, t: TableState, format: seq<RawEntry> -> Result<Formatted>)
    requires WellFormed(t)
    requires RunSpec(w, t, format).1.failure.None?
    ensures
      var fetched := FetchSpec(TargetDates(w.today, w.dayText), w.report);
      var cfg := GatewayConfig(w.tableId);
      var created := CreateSpec(cfg, t, w.getFault, w.createFault);
      && fetched.Success? && format(fetched.value).Success? && created.1.None?
      && var updated := UpdateSpec(cfg, created.0, format(fetched.value).value.rows,
                                   StartBound(StartDate(w.today, w.dayText)), EndBound(EndDate(w.today, w.dayText)),
                                   TIMESTAMP_COL, w.instant, w.deleteFault, w.insertFault);
         updated.1.None? && RunSpec(w, t, format).0 == updated.0
  {
  }

  /** A row lies in the delete window exactly when its `start` falls on a target day. */
  lemma WindowRowsOnTargetDays(today: int, dayText: int -> string, parseDate: string -> Option<int>)
    requires forall d :: parseDate(dayText(d)) == Some(d)
    ensures
      var lo := (today - (ROLLBACK_DAYS - 1)) * DAY_SECONDS;
      var hi := today * DAY_SECONDS + DAY_SECONDS - 1;
      forall x :: InWindow(x, "start", lo, hi) <==> x.start.Some? && DayOf(x.start.value) in TargetDays(today)
  {
    var lo := (today - (ROLLBACK_DAYS - 1)) * DAY_SECONDS;
    var hi := today * DAY_SECONDS + DAY_SECONDS - 1;
    forall x: Row
      ensures InWindow(x, "start", lo, hi) <==> x.start.Some? && DayOf(x.start.value) in TargetDays(today)
    {
      if x.start.Some? {
        WindowSelectsTargetDays(today, dayText, parseDate, x.start.value);
      }
    }
  }
}
