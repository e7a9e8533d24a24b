/**
 * bq_interface.py: the `BigQuery` gateway over one warehouse table.  The
 * table is an in-memory object: whether it exists, its schema, its day
 * partitioning and clustering, and its rows in storage order.  Each service
 * call either completes as one atomic step or fails with the error it is
 * given (`fault`), leaving the table as it was; `instant` is the service's
 * reading of a `TIMESTAMP('...')` literal.
 */
module Warehouse {
  import opened Wrappers
  import opened Schema

  /** `TimePartitioning(type_=DAY, field=...)` */
  datatype Partitioning = DayPartitioning(field: string)

  /** What the service knows about the table at one moment. */
  datatype TableState = TableState(
    present: bool,
    schema: seq<SchemaField>,
    partitioning: Option<Partitioning>,
    clustering: Option<seq<string>>,
    rows: seq<Row>)

  /** A table that does not exist has no metadata and no rows. */
  const ABSENT: TableState := TableState(false, [], None, None, [])

  predicate WellFormed(t: TableState)
  {
    !t.present ==> t == ABSENT
  }

  function NotFound(tableId: string): Error
  {
    Error("google.api_core.exceptions.NotFound", tableId)
  }

  function BadRequest(detail: string): Error
  {
    Error("google.api_core.exceptions.BadRequest", detail)
  }

  // ---------------------------------------------------------------- the gateway's settings

  /** The constructor arguments kept by `BigQuery.__init__`. */
  datatype Config = Config(
    tableId: string,
    schema: seq<SchemaField>,
    timePartitioningField: Option<string>,
    clusteringFields: Option<seq<string>>)

  /** Python truthiness of an optional string: neither None nor empty. */
  predicate TruthyText(v: Option<string>)
  {
    v.Some? && |v.value| > 0
  }

  /** Python truthiness of an optional list: neither None nor empty. */
  predicate TruthyList(v: Option<seq<string>>)
  {
    v.Some? && |v.value| > 0
  }

  /** The `Table(table_id, schema=...)` object `create_table_if_not_exits` builds. */
  function NewTable(cfg: Config): (t: TableState)
    ensures t.present && t.rows == [] && t.schema == cfg.schema
    ensures t.partitioning.Some? <==> TruthyText(cfg.timePartitioningField)
    ensures t.partitioning.Some? ==> t.partitioning.value == DayPartitioning(cfg.timePartitioningField.value)
    ensures t.clustering.Some? <==> TruthyList(cfg.clusteringFields)
    ensures t.clustering.Some? ==> t.clustering == cfg.clusteringFields
  {
    TableState(
      true,
      cfg.schema,
      if TruthyText(cfg.timePartitioningField) then Some(DayPartitioning(cfg.timePartitioningField.value)) else None,
      if TruthyList(cfg.clusteringFields) then cfg.clusteringFields else None,
      [])
  }

  // ---------------------------------------------------------------- specifications

  /**
   * `create_table_if_not_exits`: `get_table` either finds the table (nothing
   * changes), raises NotFound (the table is created) or fails otherwise.
   */
  function CreateSpec(cfg: Config, t: TableState, getFault: Option<Error>, createFault: Option<Error>)
    : (r: (TableState, Option<Error>))
    requires WellFormed(t)
    ensures WellFormed(r.0)
    ensures r.1.Some? ==> r.0 == t
    ensures t.present ==> r.0 == t
  {
    if getFault.Some? then (t, getFault)
    else if t.present then (t, None)
    else if createFault.Some? then (t, createFault)
    else (NewTable(cfg), None)
  }

  /** Whether a row's timestamp column lies in the closed interval; NULL compares false. */
  predicate InWindow(row: Row, col: string, lo: int, hi: int)
  {
    var t := RowTimestamp(row, col);
    t.Some? && lo <= t.value <= hi
  }

  /** The rows a `DELETE ... WHERE lo <= col AND col <= hi` keeps, in storage order. */
  function Outside(rows: seq<Row>, col: string, lo: int, hi: int): (r: seq<Row>)
    ensures |r| <= |rows|
    ensures forall x :: x in r <==> x in rows && !InWindow(x, col, lo, hi)
  {
    if rows == [] then []
    else (if InWindow(rows[0], col, lo, hi) then [] else [rows[0]]) + Outside(rows[1..], col, lo, hi)
  }

  /** The rows in the closed interval, in storage order. */
  function Inside(rows: seq<Row>, col: string, lo: int, hi: int): (r: seq<Row>)
    ensures |r| <= |rows|
    ensures forall x :: x in r <==> x in rows && InWindow(x, col, lo, hi)
  {
    if rows == [] then []
    else (if InWindow(rows[0], col, lo, hi) then [rows[0]] else []) + Inside(rows[1..], col, lo, hi)
  }

  /**
   * `delete_rows(start, end, timestamp_col)`: the query runs against the table
   * and removes the rows in the closed interval; a table that does not exist,
   * a column that is not a TIMESTAMP column and a literal that does not read
   * as an instant make the query fail.
   */
  function DeleteSpec(t: TableState, tableId: string, start: string, end: string, col: string,
                      instant: string -> Option<int>, fault: Option<Error>): (r: (TableState, Option<Error>))
    requires WellFormed(t)
    ensures WellFormed(r.0)
    ensures r.1.Some? ==> r.0 == t
    ensures r.0.present == t.present && r.0.schema == t.schema
    ensures r.0.partitioning == t.partitioning && r.0.clustering == t.clustering
  {
    if fault.Some? then (t, fault)
    else if !t.present then (t, Some(NotFound(tableId)))
    else if !IsTimestampField(t.schema, col) then (t, Some(BadRequest(col)))
    else if instant(start).None? then (t, Some(BadRequest(start)))
    else if instant(end).None? then (t, Some(BadRequest(end)))
    else (t.(rows := Outside(t.rows, col, instant(start).value, instant(end).value)), None)
  }

  /**
   * `insert_rows(df)`: a load job with WRITE_APPEND; a table that does not
   * exist yet is created by the job (the default CREATE_IF_NEEDED) with the
   * job's schema and no partitioning or clustering.
   */
  function InsertSpec(t: TableState, schema: seq<SchemaField>, rows: seq<Row>, fault: Option<Error>)
    : (r: (TableState, Option<Error>))
    requires WellFormed(t)
    ensures WellFormed(r.0)
    ensures r.1.Some? ==> r.0 == t
    ensures r.1.None? ==> r.0.present && r.0.rows == t.rows + rows
    ensures t.present ==> r.0.schema == t.schema && r.0.partitioning == t.partitioning && r.0.clustering == t.clustering
  {
    if fault.Some? then (t, fault)
    else if t.present then (t.(rows := t.rows + rows), None)
    else (TableState(true, schema, None, None, rows), None)
  }

  /** `update(df, start, end, timestamp_col)`: the delete, then, only if it completed, the insert. */
  function UpdateSpec(cfg: Config, t: TableState, rows: seq<Row>, start: string, end: string, col: string,
                      instant: string -> Option<int>, deleteFault: Option<Error>, insertFault: Option<Error>)
    : (r: (TableState, Option<Error>))
    requires WellFormed(t)
    ensures WellFormed(r.0)
    ensures r.1.None? ==>
      && t.present && instant(start).Some? && instant(end).Some?
      && r.0.present && r.0.schema == t.schema
      && r.0.rows == Outside(t.rows, col, instant(start).value, instant(end).value) + rows
    ensures r.1.Some? && r.0 != t ==> r.1 == insertFault
  {
    var (t1, e1) := DeleteSpec(t, cfg.tableId, start, end, col, instant, deleteFault);
    if e1.Some? then (t1, e1)
    else InsertSpec(t1, cfg.schema, rows, insertFault)
  }

  // ---------------------------------------------------------------- the table and the gateway

  /** The table as the service holds it; the gateway's calls change it in place. */
  class Table {
    var present: bool
    var schema: seq<SchemaField>
    var partitioning: Option<Partitioning>
    var clustering: Option<seq<string>>
    var rows: seq<Row>

    function State(): TableState
      reads this
    {
      TableState(present, schema, partitioning, clustering, rows)
    }

    predicate Valid()
      reads this
    {
      WellFormed(State())
    }

    constructor (s: TableState)
      requires WellFormed(s)
      ensures Valid() && State() == s
    {
      present, schema, partitioning, clustering, rows := s.present, s.schema, s.partitioning, s.clustering, s.rows;
    }

    /** One service call's effect on the table. */
    method Set(s: TableState)
      requires WellFormed(s)
      modifies this
      ensures Valid() && State() == s
    {
      present, schema, partitioning, clustering, rows := s.present, s.schema, s.partitioning, s.clustering, s.rows;
    }
  }

  /** `BigQuery(table_id, schema, time_partitioning_field, clustering_fields)` over the table `table_id` names. */
  class BigQuery {
    const config: Config
    const table: Table

    constructor (tableId: string, schema: seq<SchemaField>, timePartitioningField: Option<string>,
                 clusteringFields: Option<seq<string>>, table: Table)
      ensures config == Config(tableId, schema, timePartitioningField, clusteringFields)
      ensures this.table == table
    {
      config := Config(tableId, schema, timePartitioningField, clusteringFields);
      this.table := table;
    }

    method CreateTableIfNotExists(getFault: Option<Error>, createFault: Option<Error>) returns (err: Option<Error>)
      requires table.Valid()
      modifies table
      ensures table.Valid()
      ensures (table.State(), err) == CreateSpec(config, old(table.State()), getFault, createFault)
    {
      if getFault.Some? {
        return getFault;
      }
      if table.present {
        return None;
      }
      if createFault.Some? {
        return createFault;
      }
      table.Set(NewTable(config));
      err := None;
    }

    method DeleteRows(start: string, end: string, timestampCol: string, instant: string -> Option<int>,
                      fault: Option<Error>) returns (err: Option<Error>)
      requires table.Valid()
      modifies table
      ensures table.Valid()
      ensures (table.State(), err) == DeleteSpec(old(table.State()), config.tableId, start, end, timestampCol, instant, fault)
    {
      if fault.Some? {
        return fault;
      }
      if !table.present {
        return Some(NotFound(config.tableId));
      }
      if !IsTimestampField(table.schema, timestampCol) {
        return Some(BadRequest(timestampCol));
      }
      var lo, hi := instant(start), instant(end);
      if lo.None? {
        return Some(BadRequest(start));
      }
      if hi.None? {
        return Some(BadRequest(end));
      }
      table.rows := Outside(table.rows, timestampCol, lo.value, hi.value);
      err := None;
    }

    method InsertRows(rows: seq<Row>, fault: Option<Error>) returns (err: Option<Error>)
      requires table.Valid()
      modifies table
      ensures table.Valid()
      ensures (table.State(), err) == InsertSpec(old(table.State()), config.schema, rows, fault)
    {
      if fault.Some? {
        return fault;
      }
      if table.present {
        table.rows := table.rows + rows;
      } else {
        table.Set(TableState(true, config.schema, None, None, rows));
      }
      err := None;
    }

    method Update(rows: seq<Row>, start: string, end: string, timestampCol: string, instant: string -> Option<int>,
                  deleteFault: Option<Error>, insertFault: Option<Error>) returns (err: Option<Error>)
      requires table.Valid()
      modifies table
      ensures table.Valid()
      ensures (table.State(), err)
        == UpdateSpec(config, old(table.State()), rows, start, end, timestampCol, instant, deleteFault, insertFault)
    {
      err := DeleteRows(start, end, timestampCol, instant, deleteFault);
      if err.Some? {
        return;
      }
      err := InsertRows(rows, insertFault);
    }
  }

  // ---------------------------------------------------------------- properties

  /** Creating twice leaves the table as creating once, and the second call raises nothing new. */
  lemma CreateIdempotent(cfg: Config, t: TableState, createFault: Option<Error>)
    requires WellFormed(t)
    ensures
      var (t1, e1) := CreateSpec(cfg, t, None, createFault);
      e1.None? ==> CreateSpec(cfg, t1, None, createFault) == (t1, None)
  {
  }

  /** On an existing table the create step is a no-op; on an absent one it creates the configured, empty table. */
  lemma CreateIfAbsent(cfg: Config, t: TableState)
    requires WellFormed(t)
    ensures t.present ==> CreateSpec(cfg, t, None, None) == (t, None)
    ensures !t.present ==> CreateSpec(cfg, t, None, None) == (NewTable(cfg), None)
  {
  }

  /** The job's configuration: day partitioning on `start`, clustering on project and the three tags. */
  lemma CreatedLayout(cfg: Config)
    requires cfg.schema == BQ_TABLE_SCHEMA
    requires cfg.timePartitioningField == Some(TIME_PARTITIONING_FIELD)
    requires cfg.clusteringFields == Some(CLUSTERING_FIELDS)
    ensures NewTable(cfg) == TableState(true, BQ_TABLE_SCHEMA, Some(DayPartitioning("start")),
                                        Some(["project", "tag1", "tag2", "tag3"]), [])
  {
  }

  /** Deleting splits over concatenation, so it keeps the surviving rows in their storage order. */
  lemma {:induction false} OutsideConcat(a: seq<Row>, b: seq<Row>, col: string, lo: int, hi: int)
    ensures Outside(a + b, col, lo, hi) == Outside(a, col, lo, hi) + Outside(b, col, lo, hi)
  {
    if a == [] {
      assert a + b == b;
    } else {
      assert (a + b)[1..] == a[1..] + b;
      OutsideConcat(a[1..], b, col, lo, hi);
    }
  }

  lemma {:induction false} InsideConcat(a: seq<Row>, b: seq<Row>, col: string, lo: int, hi: int)
    ensures Inside(a + b, col, lo, hi) == Inside(a, col, lo, hi) + Inside(b, col, lo, hi)
  {
    if a == [] {
      assert a + b == b;
    } else {
      assert (a + b)[1..] == a[1..] + b;
      InsideConcat(a[1..], b, col, lo, hi);
    }
  }

  /** Rows none of which lies in the interval survive the delete unchanged and in order. */
  lemma {:induction false} OutsideOfOutside(rows: seq<Row>, col: string, lo: int, hi: int)
    requires forall k :: 0 <= k < |rows| ==> !InWindow(rows[k], col, lo, hi)
    ensures Outside(rows, col, lo, hi) == rows
    ensures Inside(rows, col, lo, hi) == []
  {
    if rows != [] {
      OutsideOfOutside(rows[1..], col, lo, hi);
    }
  }

  /** Deleting the same interval again removes nothing more. */
  lemma DeleteIdempotent(rows: seq<Row>, col: string, lo: int, hi: int)
    ensures Outside(Outside(rows, col, lo, hi), col, lo, hi) == Outside(rows, col, lo, hi)
  {
    var once := Outside(rows, col, lo, hi);
    assert forall k :: 0 <= k < |once| ==> once[k] in once;
    OutsideOfOutside(once, col, lo, hi);
  }

  /** Every row goes to exactly one side: the delete loses no row it should keep. */
  lemma {:induction false} SplitCounts(rows: seq<Row>, col: string, lo: int, hi: int)
    ensures |Outside(rows, col, lo, hi)| + |Inside(rows, col, lo, hi)| == |rows|
    ensures multiset(Outside(rows, col, lo, hi)) + multiset(Inside(rows, col, lo, hi)) == multiset(rows)
  {
    if rows != [] {
      SplitCounts(rows[1..], col, lo, hi);
      assert rows == [rows[0]] + rows[1..];
    }
  }

  /** A completed delete removes exactly the rows with `lo <= ts <= hi` and keeps the rest. */
  lemma DeleteExact(t: TableState, tableId: string, start: string, end: string, col: string,
                    instant: string -> Option<int>)
    requires WellFormed(t) && t.present && IsTimestampField(t.schema, col)
    requires instant(start).Some? && instant(end).Some?
    ensures
      var lo, hi := instant(start).value, instant(end).value;
      var (t1, e) := DeleteSpec(t, tableId, start, end, col, instant, None);
      && e.None?
      && t1.rows == Outside(t.rows, col, lo, hi)
      && multiset(t1.rows) + multiset(Inside(t.rows, col, lo, hi)) == multiset(t.rows)
      && (forall x :: x in t1.rows ==> !InWindow(x, col, lo, hi))
  {
    SplitCounts(t.rows, col, instant(start).value, instant(end).value);
  }

  /** A completed insert keeps every existing row at its place and puts the new rows after them. */
  lemma InsertAppends(t: TableState, schema: seq<SchemaField>, rows: seq<Row>)
    requires WellFormed(t)
    ensures
      var t1 := InsertSpec(t, schema, rows, None).0;
      && |t1.rows| == |t.rows| + |rows|
      && t1.rows[..|t.rows|] == t.rows
      && t1.rows[|t.rows|..] == rows
  {
    var t1 := InsertSpec(t, schema, rows, None).0;
    assert t1.rows == t.rows + rows;
  }

  /**
   * The replace-window contract: after a completed update the table holds the
   * old rows outside the interval, in order, followed by all the new rows;
   * inside the interval it holds exactly the new rows that fall there.
   */
  lemma UpdateReplacesWindow(cfg: Config, t: TableState, rows: seq<Row>, start: string, end: string,
                             col: string, instant: string -> Option<int>)
    requires WellFormed(t) && t.present && IsTimestampField(t.schema, col)
    requires instant(start).Some? && instant(end).Some?
    ensures
      var lo, hi := instant(start).value, instant(end).value;
      var (t1, e) := UpdateSpec(cfg, t, rows, start, end, col, instant, None, None);
      && e.None?
      && t1.rows == Outside(t.rows, col, lo, hi) + rows
      && Inside(t1.rows, col, lo, hi) == Inside(rows, col, lo, hi)
      && Outside(t1.rows, col, lo, hi) == Outside(t.rows, col, lo, hi) + Outside(rows, col, lo, hi)
      && t1.schema == t.schema && t1.partitioning == t.partitioning && t1.clustering == t.clustering
  {
    var lo, hi := instant(start).value, instant(end).value;
    var kept := Outside(t.rows, col, lo, hi);
    InsideConcat(kept, rows, col, lo, hi);
    OutsideConcat(kept, rows, col, lo, hi);
    assert forall k :: 0 <= k < |kept| ==> kept[k] in kept;
    OutsideOfOutside(kept, col, lo, hi);
  }

  /** A failed delete stops the update before the insert: the table is untouched. */
  lemma UpdateDeletesFirst(cfg: Config, t: TableState, rows: seq<Row>, start: string, end: string, col: string,
                           instant: string -> Option<int>, deleteFault: Option<Error>, insertFault: Option<Error>)
    requires WellFormed(t)
    requires DeleteSpec(t, cfg.tableId, start, end, col, instant, deleteFault).1.Some?
    ensures UpdateSpec(cfg, t, rows, start, end, col, instant, deleteFault, insertFault)
      == (t, DeleteSpec(t, cfg.tableId, start, end, col, instant, deleteFault).1)
  {
  }

  /** A failed insert after a completed delete leaves the window emptied: the pair is not atomic. */
  lemma UpdateIsNotAtomic(cfg: Config, t: TableState, rows: seq<Row>, start: string, end: string, col: string,
                          instant: string -> Option<int>, insertFault: Error)
    requires WellFormed(t) && t.present && IsTimestampField(t.schema, col)
    requires instant(start).Some? && instant(end).Some?
    ensures
      var lo, hi := instant(start).value, instant(end).value;
      UpdateSpec(cfg, t, rows, start, end, col, instant, None, Some(insertFault))
        == (t.(rows := Outside(t.rows, col, lo, hi)), Some(insertFault))
  {
  }
}
