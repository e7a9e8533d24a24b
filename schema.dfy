/** The warehouse table's declared schema, its layout constants and its row shape (main.py). */
module Schema {
  import opened Wrappers
  import opened Records

  datatype FieldType = Integer | String | Timestamp | Float
  datatype Mode = Required | Nullable
  datatype SchemaField = SchemaField(name: string, fieldType: FieldType, mode: Mode)

  const BQ_TABLE_SCHEMA: seq<SchemaField> := [
    SchemaField("id", Integer, Required),
    SchemaField("project", String, Nullable),
    SchemaField("description", String, Nullable),
    SchemaField("start", Timestamp, Required),
    SchemaField("end", Timestamp, Required),
    SchemaField("updated", Timestamp, Required),
    SchemaField("second", Integer, Required),
    SchemaField("minute", Float, Required),
    SchemaField("hour", Float, Required),
    SchemaField("tag1", String, Nullable),
    SchemaField("tag2", String, Nullable),
    SchemaField("tag3", String, Nullable)
  ]
  const TIME_PARTITIONING_FIELD: string := "start"
  const CLUSTERING_FIELDS: seq<string> := ["project", "tag1", "tag2", "tag3"]
  const ROLLBACK_DAYS: nat := 7
  const TARGET_SLACK_CHANNEL: string := "error"

  /** The column names of a schema, in declaration order. */
  function Names(schema: seq<SchemaField>): (names: seq<string>)
    ensures |names| == |schema|
    ensures forall k :: 0 <= k < |schema| ==> names[k] == schema[k].name
  {
    seq(|schema|, k requires 0 <= k < |schema| => schema[k].name)
  }

  /** True when `col` is declared in `schema` with type TIMESTAMP. */
  predicate IsTimestampField(schema: seq<SchemaField>, col: string)
  {
    exists k :: 0 <= k < |schema| && schema[k].name == col && schema[k].fieldType == Timestamp
  }

  /**
   * One formatted row, as loaded into the table.  The three timestamps are
   * `None` where pandas holds NaT and minute and hour are `None` where it
   * holds NaN; the string columns keep the value the
   * report gave, since the 'object' cast converts nothing.
   */
  datatype Row = Row(
    id: int,
    project: Value,
    description: Value,
    start: Option<int>,
    end: Option<int>,
    updated: Option<int>,
    second: int,
    minute: Option<real>,
    hour: Option<real>,
    tag1: Value,
    tag2: Value,
    tag3: Value)

  /** The value of timestamp column `col` of a row; `None` for NaT and for any other column. */
  function RowTimestamp(row: Row, col: string): (t: Option<int>)
    ensures col !in ["start", "end", "updated"] ==> t == None
  {
    if col == "start" then row.start
    else if col == "end" then row.end
    else if col == "updated" then row.updated
    else None
  }

  /** The TIMESTAMP columns of the declared schema are exactly the three a row carries. */
  lemma TimestampFieldsOfSchema(col: string)
    ensures IsTimestampField(BQ_TABLE_SCHEMA, col) <==> col in ["start", "end", "updated"]
  {
    if col in ["start", "end", "updated"] {
      var k := if col == "start" then 3 else if col == "end" then 4 else 5;
      assert BQ_TABLE_SCHEMA[k].name == col;
    }
  }

  /** The partition column is a TIMESTAMP column and every clustering column a column of the schema. */
  lemma LayoutFieldsInSchema()
    ensures IsTimestampField(BQ_TABLE_SCHEMA, TIME_PARTITIONING_FIELD)
    ensures forall c :: c in CLUSTERING_FIELDS ==> c in Names(BQ_TABLE_SCHEMA)
  {
    TimestampFieldsOfSchema(TIME_PARTITIONING_FIELD);
    var names := Names(BQ_TABLE_SCHEMA);
    assert names[1] == "project" && names[9] == "tag1" && names[10] == "tag2" && names[11] == "tag3";
  }
}
