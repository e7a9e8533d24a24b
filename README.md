# Time-tracking report sync: a verified model

The program syncs time-tracking data into a warehouse table once per run. It fetches the detailed
report for the last seven days. It reshapes the entries into typed rows with the table's twelve
columns, makes sure the table exists, and replaces the rows of that window: it first deletes the
window's old rows and then appends the new ones. A single catch-all handler posts any failure to a
chat channel.

This project models that core in Dafny:

- `Records`, `Schema`: report values, raw entries, the declared table schema and its layout
  constants (main.py), and the row shape the table receives.
- `Frames`: the part of a pandas DataFrame the formatter uses. A frame is ordered labels plus one
  column per label. A class `Frame` updates its columns in place: assignment replaces a column or
  appends a new one, and a drop raises KeyError when the label is absent.
- `Formatting`: `extract_tag`, `add_duration_columns`, `add_tag_columns` (a loop over the tag
  count), the dtype casts and `get_formatted_dataframe`. Each stage has a specification function.
  The in-place methods are proved against those functions. The whole formatter is then proved
  equal to a row-by-row reference (`ExpectedRow`).
- `Window`: `target_dates`, `start_date`/`end_date` and the two delete-bound texts. Dates are day
  ordinals, and instants are whole seconds with day `d` starting at `d * 86400`; the whole-day
  reading of the delete bounds depends on that (see "## Left out").
- `Warehouse`: the `BigQuery` gateway class over a `Table` object that holds the table's existence,
  schema, day partitioning, clustering and rows. Each gateway call is a method proved against a
  specification function, and the replace-window contract is proved about those functions.
- `Orchestrator`: `main`. Stage outcomes are inputs: the clock, the report service, the
  warehouse's reading of timestamp literals and each service call's failure. `Run` is proved
  against `RunSpec`, and the lemmas state the stage order, the error report and the end-to-end
  window replacement.

Behaviours of the code that the model keeps:

- `extract_tag` indexes the way Python does. A negative index counts from the end, and a string
  gives its one-character substring. An index out of range gives None, and so does a value the
  model does not index (see `Formatting.ExtractTag` under "## Left out").
- The formatter does not check that fetched entries fall inside the window. Rows outside it are
  appended too (`UpdateReplacesWindow`, `Outside(rows, …)`), so "every formatted row lies in the
  window" is not a guarantee of the code.
- `add_tag_columns` drops the literal label `tags`, whatever `colname` it is given.
- A report with no entries has no columns, so the projection raises KeyError.

## Model

| member | source | states |
|---|---|---|
| Records.Cell | main.py:81 | a field absent from an entry reads as NaN (`Null`) in the frame built from the entries |
| Schema.Names | main.py:20-33 | the schema's column names, one per field, in declaration order |
| Schema.RowTimestamp | main.py:24-26 | only start, end and updated are timestamp columns of a row; any other column has no timestamp |
| Schema.TimestampFieldsOfSchema | main.py:20-33 | the TIMESTAMP columns of `BQ_TABLE_SCHEMA` are exactly start, end and updated |
| Schema.LayoutFieldsInSchema | main.py:34-35 | the partition column is a TIMESTAMP column and every clustering column is a schema column |
| Frames.Without | main.py:112 | a drop keeps every other label and removes every occurrence of the dropped one |
| Frames.WithoutOnce | main.py:112 | dropping a label that occurs once keeps the other labels in their order |
| Frames.Assign | main.py:109-111 | column assignment replaces an existing column in place or appends a new label, and keeps the frame consistent |
| Frames.Drop | main.py:112 | `drop(columns=name)` raises KeyError exactly when the label is absent; otherwise it removes that label and its column only |
| Frames.Frame.constructor | main.py:81 | the frame object starts holding the given consistent frame value |
| Frames.Frame.SetColumn | main.py:109-111 | the in-place assignment leaves the frame equal to `Assign` of its old value |
| Frames.Frame.DropColumn | main.py:112 | the in-place drop equals `Drop`; on KeyError the frame is unchanged |
| Formatting.FieldColumn | main.py:81 | the frame's column for a field holds each entry's value in entry order, NaN where the entry lacks the field |
| Formatting.Project | main.py:71-81 | on success the frame has the eight selected labels in order and one row per entry |
| Formatting.ProjectAllPresent | main.py:71-81 | when every selected field occurs in some entry, the projection succeeds with those eight columns |
| Formatting.FormatFailsWithoutField | main.py:71-81 | a selected field that no entry carries makes formatting raise KeyError |
| Formatting.FormatOfNoEntriesFails | main.py:81 | formatting an empty report raises KeyError |
| Formatting.Divide | main.py:109-111 | dividing a cell succeeds exactly when it is a number or NaN; anything else raises TypeError |
| Formatting.DivideAll | main.py:109-111 | dividing a column succeeds exactly when every cell is a number or NaN, cell by cell; otherwise it raises TypeError |
| Formatting.DurationSpec | main.py:105-113 | a missing duration column raises KeyError and leaves the frame; on success the frame keeps its height and no longer holds that column |
| Formatting.AddDurationColumns | main.py:105-113 | the in-place method leaves the frame and the raised exception that `DurationSpec` gives |
| Formatting.DurationStage | main.py:105-113 | on the projected frame, seconds, minutes and hours are the duration divided by 1000, 60000 and 3600000, dur is dropped and the labels are the three durations after the other seven |
| Formatting.MinuteOfSecond | main.py:110 | `second / 60` equals the milliseconds divided by 60000, exactly |
| Formatting.HourOfMinute | main.py:111 | `minute / 60` equals the milliseconds divided by 3600000, exactly |
| Formatting.MillisToSeconds | main.py:94-109 | after the int64 cast, `second` is `dur div 1000` for non-negative dur and is truncated toward zero otherwise |
| Formatting.ExtractTag | main.py:124-132 | a tag that is not None is an element of the list or one character of the text; any other value gives None |
| Formatting.ExtractTagIndexing | main.py:124-132 | `extract_tag(xs, i)` is `xs[i]` for an index in range, counts from the end for a negative index, and is None otherwise or for a value that cannot be indexed |
| Formatting.TagColumnsArePaddedPrefix | main.py:119-120 | tag1..tag3 of a list are its first three elements, padded with None; later tags are dropped |
| Formatting.ExtractAll | main.py:120 | the tag column holds `extract_tag` of each cell at the iteration's index |
| Formatting.TagName | main.py:120 | `'tag{}'.format(i+1)` starts with "tag", has a digit after it and is never the label `tags` |
| Formatting.Decimal | main.py:120 | `str(n)` is a non-empty string of decimal digits |
| Formatting.TagsLoopStops | main.py:119-120 | once an iteration of the loop has raised, later iterations change nothing |
| Formatting.TagsLoop | main.py:119-120 | the loop keeps the frame's height and every existing label, and the only exception it raises is KeyError on the tag column |
| Formatting.TagsSpec | main.py:115-122 | on success the frame keeps its height and holds no column `tags` |
| Formatting.AddTagColumns | main.py:115-122 | the loop and the final drop leave the frame and the exception that `TagsSpec` gives |
| Formatting.TagsStage | main.py:115-122 | after the duration stage, three tag columns hold `extract_tag` at 0, 1, 2 and `tags` is dropped |
| Formatting.Trunc | main.py:94 | the int64 cast of a real truncates toward zero: the result is within one of the value, on the side of zero |
| Formatting.CastInt64 | main.py:89-99 | a cell casts to int64 exactly when it is a number or integer text: an integer casts to itself, a float truncates, text is read as `int()` reads it; NaN and any other value fail |
| Formatting.DigitsOfDecimal | main.py:89-99 | the digits of `str(n)` read back as `n` |
| Formatting.CastInt64OfText | main.py:89-99 | the int64 cast reads `str(n)`, `"-" + str(n)` and `"+" + str(n)` as n, -n and n |
| Formatting.CastFloat64 | main.py:89-99 | a cell casts to float64 exactly when it is a number, NaN or integer text; NaN stays NaN and a number keeps its value |
| Formatting.ToDatetime | main.py:139-140 | `pd.to_datetime` accepts a timestamp, a number or NaN: a timestamp keeps its instant, an integer is read as nanoseconds since the epoch and lands in the second that holds it, and NaN becomes NaT |
| Formatting.CastColumns | main.py:134-141 | successful casts keep the labels and one row per frame row; a failing cast is reported with the kind ValueError (the pandas subclass or TypeError is not distinguished; see "## Left out") |
| Formatting.CastAll | main.py:134-141 | a column casts exactly when every cell casts, and then each cell's cast is kept at its position |
| Formatting.Convert | main.py:134-141 | on success the cast frame keeps the labels and the number of rows |
| Formatting.CastColumnsByRow | main.py:90-102 | the casts succeed exactly when every row's cells cast, and then row k is built from the cells at k |
| Formatting.FormattedColsAreSchemaOrder | main.py:20-33 | the formatted labels are the schema's column names, in the same order |
| Formatting.FormatSpec | main.py:67-103 | a formatted report has one row per fetched entry |
| Formatting.ExpectedRow | main.py:89-102 | an entry has a typed row exactly when its id is a number or integer text, its duration is a number, and each of its three timestamps is a timestamp, a number or NaN; a non-negative integer duration gives `dur div 1000` seconds, and minute and hour are never NaN in a row |
| Formatting.GetFormattedDataframe | main.py:67-103 | building the frame and mutating it stage by stage gives the composed specification `FormatSpec` |
| Formatting.PipelineFrame | main.py:81-87 | with every field present and divisible durations, the frame before the casts holds each derived column of the report |
| Formatting.CastRowwise | main.py:90-102 | the casts on that frame succeed exactly when every entry has a row, and then give each entry's row |
| Formatting.FormatIsRowwise | main.py:67-103 | formatting succeeds exactly when every entry has a typed row, and then yields those rows in report order under the schema's column names |
| Formatting.FormatFailsOnBadDuration | main.py:109 | a duration that is not a number or NaN makes formatting raise TypeError |
| Formatting.FormatSucceedsIffEveryRowCasts | main.py:67-103 | formatting succeeds if and only if all eight fields occur and every entry's id, duration and timestamps cast |
| Formatting.FormatFailsOnMissingDuration | main.py:94-109 | an entry without a duration gets a NaN second, which the int64 cast rejects |
| Window.Reverse | main.py:48 | `[::-1]` puts element k at position n-1-k |
| Window.TargetDates | main.py:48 | date k of the seven is the text of the day k positions after the oldest, today being the last |
| Window.StartDate | main.py:49 | `start_date` is the text of the day six days before today |
| Window.EndDate | main.py:50 | `end_date` is today's text |
| Window.StartBound | main.py:57 | the start bound is the date, a space and a clock that reads as the day's first second |
| Window.EndBound | main.py:58 | the end bound is the date, a space and a clock that reads as the day's last second |
| Window.TargetDaysAscending | main.py:36-48 | the window has seven consecutive days in ascending order, the last of them today |
| Window.TargetDatesAreDayTexts | main.py:48 | each target date is the text of the day at the same position |
| Window.BoundsOfWindow | main.py:49-58 | the delete bounds are the oldest date's text with " 00:00:00" and today's text with " 23:59:59" |
| Window.ParseClock | main.py:57-58 | a valid clock text reads as a second of the day below 86400 |
| Window.ClockBounds | main.py:57-58 | "00:00:00" is the first and "23:59:59" the last second of a day |
| Window.ParseBoundOf | main.py:57-58 | a bound built from a date text and a clock reads back as that day's second |
| Window.BoundInstants | main.py:57-58 | the two bounds read as midnight of the first day and the last second of the last day |
| Window.BoundsCoverWholeDays | main.py:57-58 | a timestamp lies between those closed bounds exactly when its day lies between the two days |
| Window.WindowSelectsTargetDays | main.py:48-58 | the bounds built from `target_dates` select exactly the instants that fall on a target day |
| Warehouse.NewTable | bq_interface.py:29-37 | the created table has the schema and no rows; it is day-partitioned only if the partition field is truthy and clustered only if the clustering fields are truthy |
| Warehouse.CreateSpec | bq_interface.py:21-39 | an existing table is left as it is; a failed call changes nothing |
| Warehouse.CreateIfAbsent | bq_interface.py:25-38 | an existing table makes the step a no-op; an absent table is created from the configuration |
| Warehouse.CreateIdempotent | bq_interface.py:21-39 | creating twice gives the same table as creating once |
| Warehouse.CreatedLayout | main.py:20-35 | with the program's settings the table is partitioned by day on start and clustered on project, tag1, tag2, tag3 |
| Warehouse.Outside | bq_interface.py:52-58 | the delete keeps exactly the rows whose timestamp is NULL or outside the closed interval |
| Warehouse.Inside | bq_interface.py:52-58 | the rows whose timestamp lies in the closed interval |
| Warehouse.DeleteSpec | bq_interface.py:48-67 | the delete changes only the rows; a failed query changes nothing |
| Warehouse.InsertSpec | bq_interface.py:69-76 | a completed load keeps the old rows and appends the new ones; a failed load changes nothing |
| Warehouse.Table.constructor | bq_interface.py:14-19 | the table object starts in the given well-formed state |
| Warehouse.BigQuery.constructor | bq_interface.py:14-19 | the gateway keeps its table id, schema, partition field and clustering fields |
| Warehouse.BigQuery.CreateTableIfNotExists | bq_interface.py:21-39 | the method leaves the table and the raised error that `CreateSpec` gives |
| Warehouse.BigQuery.DeleteRows | bq_interface.py:48-67 | the method leaves the table and the raised error that `DeleteSpec` gives |
| Warehouse.BigQuery.InsertRows | bq_interface.py:69-76 | the method leaves the table and the raised error that `InsertSpec` gives |
| Warehouse.UpdateSpec | bq_interface.py:41-46 | a completed update found the table and both bounds readable and leaves the old rows outside the interval followed by the new rows; a changed table with an error means the insert failed |
| Warehouse.BigQuery.Update | bq_interface.py:41-46 | the method runs the delete, then the insert only if the delete completed, as `UpdateSpec` states |
| Warehouse.OutsideConcat | bq_interface.py:52-58 | the delete splits over concatenation, so the surviving rows keep their relative order |
| Warehouse.OutsideOfOutside | bq_interface.py:52-58 | rows none of which is in the interval survive unchanged and in order |
| Warehouse.DeleteIdempotent | bq_interface.py:48-67 | deleting the same interval twice removes nothing more |
| Warehouse.SplitCounts | bq_interface.py:52-58 | every row is either kept or deleted, and none is lost or duplicated |
| Warehouse.DeleteExact | bq_interface.py:48-67 | a completed delete removes exactly the rows in the closed interval and keeps the rest |
| Warehouse.InsertAppends | bq_interface.py:73-74 | the old rows stay at their positions and the new rows follow them |
| Warehouse.UpdateReplacesWindow | bq_interface.py:41-46 | after a completed update the table is the old rows outside the interval followed by the new rows; inside the interval it holds exactly the new rows that fall there |
| Warehouse.UpdateDeletesFirst | bq_interface.py:45-46 | a failed delete stops the update before the insert, and the table is untouched |
| Warehouse.UpdateIsNotAtomic | bq_interface.py:45-46 | a failed insert after a completed delete leaves the window's old rows deleted |
| Orchestrator.RStripNewlines | main.py:63 | `rstrip('\n')` removes exactly the trailing newlines and keeps the rest as a prefix |
| Orchestrator.RStripKeeps | main.py:63 | text that does not end in a newline is kept whole when newlines appended to it are stripped |
| Orchestrator.MessageOf | main.py:62-64 | the message is the timestamp, a space, the exception type and, when there is one, ": " and its text |
| Orchestrator.Summary | main.py:63 | `format_exception_only` starts with the exception type, adds ": " when there is a text, and ends in a newline |
| Orchestrator.ErrorMessage | main.py:62-64 | the message starts with the timestamp and a space and does not end in a newline |
| Orchestrator.Handled | main.py:61-65 | the handler records the failure, makes one `send_message` call to channel "error" with the message, and raises what the send raises |
| Orchestrator.FetchSpec | main.py:52 | fetching succeeds exactly when every per-date request succeeds |
| Orchestrator.FetchOneMore | main.py:52 | one more date appends that date's entries after those already fetched |
| Orchestrator.RunSpec | main.py:39-65 | a run leaves a well-formed table |
| Orchestrator.Run | main.py:39-65 | `main` leaves the table and the outcome that `RunSpec` gives with the real formatter |
| Orchestrator.StagesInOrder | main.py:43-60 | the entered stages are a prefix of fetch, format, ensure table, update; a run without failure enters all four and sends nothing |
| Orchestrator.FailureReportedOnce | main.py:61-65 | a failure after the clients exist is sent once, to channel "error", as the timestamped summary |
| Orchestrator.EarlyFailureIsSilent | main.py:44-65 | a failure while the clients are built sends nothing and leaves the table alone, and the handler itself raises |
| Orchestrator.TableUntouchedBeforeEnsure | main.py:52-54 | a run that fails before ensuring the table leaves the table unchanged |
| Orchestrator.CompletedRunUpdates | main.py:52-60 | a run without failure fetched and formatted the report, found or created the table, and completed the update over the window's two bounds |
| Orchestrator.WindowRowsOnTargetDays | main.py:48-58 | a row lies between the two delete bounds exactly when its start falls on one of the seven target days |
| Orchestrator.CompletedRunReplacesWindow | main.py:48-60 | a completed run leaves the old rows whose start is not on a target day, in order, followed by the formatted report |

## Left out

- The report service (toggl_interface.py) is not part of this model. A per-date request is the input
  function `report`, the workspace lookup is the fault `togglFault`, and `time.sleep(1)` is omitted.
- The chat post (slack_interface.py) is not part of this model. Each `send_message` call is a
  `Message` value in the run's outcome (`sends`), recorded whether or not the post succeeds, and
  the post's failure is the fault `sendFault`.
- The clock, `strftime` and calendar arithmetic: `today`, `dayText` and the handler's `errorStamp` are
  inputs. `datetime.now()` is read once per target date in the program. A run across midnight is not
  modelled.
- The Asia/Tokyo reading of the delete bounds: the warehouse's reading of a timestamp literal is the
  input `instant`. `CompletedRunReplacesWindow` assumes it reads a bound the way `ParseBound` does.
- Floating point: minutes, hours and the seconds before the cast are exact rationals, so rounding and
  overflow of the int64 cast are not modelled.
- pandas dtype inference and ISO-8601 parsing: a timestamp text is a `Stamp` value that carries its
  instant, and the 'object' casts leave values as they are.
- Formatting.CastInt64, Formatting.CastFloat64, Formatting.ToDatetime, Formatting.ExpectedRow: integer
  text is digits with an optional sign. The whitespace, underscores and non-ASCII digits that `int()`
  and `float()` also accept are not modelled. The same holds for float text with a fraction or an
  exponent, for "nan" and "inf", and for the date texts other than ISO-8601 that `pd.to_datetime`
  parses. A number read as a timestamp keeps only its whole second. The report delivers ids as JSON
  numbers and timestamps as ISO-8601 text, and minute and hour only ever hold quotients or NaN, so
  these shapes do not reach the casts.
- The text of pandas' and the warehouse's exceptions: an `Error` carries the exception's type name and
  a detail, for example the missing column, and not the library's exact message.
- Warehouse internals: SQL text, load-job schema validation, the NOT NULL checks of REQUIRED columns
  and a table created by another run between the lookup and the create. Each call is one atomic
  step, and a failing call changes nothing.
- Orchestrator.RunSpec: the formatter is a parameter, so the run's lemmas hold for any formatter.
  `Run` fixes it to `FormatSpec`, whose properties are proved in `Formatting`.
- Formatting.ExtractTag: a tag cell held as a Stamp reads as None, where Python would give one
  character of the timestamp's text; the report's tags are lists, so this does not arise.
- Formatting.CastColumns: every failed cast reports the kind "ValueError". pandas raises
  `IntCastingNaNError` (a ValueError subclass) for NaN in an int64 column, and TypeError for a None
  or list cell in an object column cast to int64 or given to `pd.to_datetime`. A `Null` stands for
  both None and NaN, so the model cannot tell these apart, and the handler's message would carry
  the other type name.
- Window.BoundsCoverWholeDays, Window.WindowSelectsTargetDays, Orchestrator.WindowRowsOnTargetDays,
  Orchestrator.CompletedRunReplacesWindow: instants are whole seconds, so no instant falls between
  23:59:59 and midnight. The warehouse keeps microseconds, and a row starting inside the last second
  of the window's last day (23:59:59.5, say) is not deleted by the closed bound. Sub-second starts
  are not modelled; the report's timestamp texts are whole seconds.
- Logging (`print`), environment and dotenv loading, and concurrent runs.
