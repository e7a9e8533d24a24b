/**
 * The table formatter of main.py: `get_formatted_dataframe` projects the
 * report onto eight fields, `add_duration_columns` derives seconds, minutes
 * and hours from the millisecond duration, `add_tag_columns` splits the tag
 * list into tag1..tag3 with `extract_tag`, and `convert_dtypes` casts the
 * columns into the typed rows the table receives.
 */
module Formatting {
  import opened Wrappers
  import opened Records
  import opened Schema
  import opened Frames

  /** The eight report fields the formatter keeps, in the order it selects them. */
  const USE_COLS: seq<string> := ["id", "project", "description", "tags", "start", "end", "updated", "dur"]

  /** The frame after formatting has exactly these labels, in this order. */
  datatype Formatted = Formatted(columns: seq<string>, rows: seq<Row>)

  // ---------------------------------------------------------------- projection

  /** Some entry of the report carries `field`, so `pd.DataFrame(data)` has that column. */
  predicate HasField(records: seq<RawEntry>, field: string)
  {
    exists k :: 0 <= k < |records| && field in records[k]
  }

  /** The elements of `wanted` for which `present` fails, in order. */
  function Absent(wanted: seq<string>, present: string -> bool): (r: seq<string>)
    ensures forall c :: c in r <==> c in wanted && !present(c)
  {
    if wanted == [] then []
    else (if present(wanted[0]) then [] else [wanted[0]]) + Absent(wanted[1..], present)
  }

  lemma {:induction false} NoneAbsent(wanted: seq<string>, present: string -> bool)
    requires forall c :: c in wanted ==> present(c)
    ensures Absent(wanted, present) == []
  {
    if wanted != [] {
      NoneAbsent(wanted[1..], present);
    }
  }

  /** The column `pd.DataFrame(data)` builds for `field`: one cell per entry, NaN where the key is absent. */
  function FieldColumn(records: seq<RawEntry>, field: string): (col: seq<Value>)
    ensures |col| == |records|
    ensures forall k :: 0 <= k < |records| ==> col[k] == Cell(records[k], field)
  {
    seq(|records|, k requires 0 <= k < |records| => Cell(records[k], field))
  }

  /** `pd.DataFrame(data)[use_cols]`: KeyError unless every selected field is some entry's key. */
  function Project(records: seq<RawEntry>): (r: Result<FrameValue>)
    ensures r.Success? ==> Consistent(r.value) && r.value.columns == USE_COLS && r.value.height == |records|
  {
    var missing := Absent(USE_COLS, c => HasField(records, c));
    if missing != [] then Failure(KeyError(missing[0]))
    else Success(Projected(records, USE_COLS))
  }

  /** The frame of the selected fields, one column per label. */
  function Projected(records: seq<RawEntry>, cols: seq<string>): (f: FrameValue)
    ensures Consistent(f) && f.columns == cols && f.height == |records|
    ensures forall c :: c in cols ==> f.data[c] == FieldColumn(records, c)
  {
    var data := map c | c in cols :: FieldColumn(records, c);
    assert forall c :: c in data <==> c in cols;
    FrameValue(cols, data, |records|)
  }

  // ---------------------------------------------------------------- durations

  /** Python truncation of a float to an integer (the int64 cast), toward zero. */
  function Trunc(x: real): (r: int)
    ensures x >= 0.0 ==> r as real <= x < r as real + 1.0
    ensures x < 0.0 ==> r as real - 1.0 < x <= r as real
  {
    if x >= 0.0 then x.Floor else -((-x).Floor)
  }

  /** A divided cell: NaN stays NaN, a number is divided exactly. */
  function Scaled(v: Value, d: real): Value
    requires d != 0.0
  {
    match v
    case Int(n) => Real(n as real / d)
    case Real(x) => Real(x / d)
    case _ => Null
  }

  function ScaledAll(vs: seq<Value>, d: real): (r: seq<Value>)
    requires d != 0.0
    ensures |r| == |vs| && forall k :: 0 <= k < |vs| ==> r[k] == Scaled(vs[k], d)
  {
    seq(|vs|, k requires 0 <= k < |vs| => Scaled(vs[k], d))
  }

  /** `value / d` on a pandas cell: numbers and NaN divide, anything else raises TypeError. */
  function Divide(v: Value, d: real): (r: Result<Value>)
    requires d != 0.0
    ensures r.Success? <==> v.Int? || v.Real? || v.Null?
    ensures r.Failure? ==> r.error.kind == "TypeError"
  {
    if v.Int? || v.Real? || v.Null? then Success(Scaled(v, d))
    else Failure(Error("TypeError", "unsupported operand type(s) for /"))
  }

  /** A whole column divided by `d`; the first cell that cannot be divided raises. */
  function DivideAll(vs: seq<Value>, d: real): (r: Result<seq<Value>>)
    requires d != 0.0
    ensures r.Success? <==> forall k :: 0 <= k < |vs| ==> Divide(vs[k], d).Success?
    ensures r.Success? ==> r.value == ScaledAll(vs, d)
    ensures r.Failure? ==> r.error.kind == "TypeError"
  {
    if vs == [] then Success([])
    else
      var head := Divide(vs[0], d);
      var tail := DivideAll(vs[1..], d);
      if head.Failure? then Failure(head.error)
      else if tail.Failure? then Failure(tail.error)
      else
        var r := [head.value] + tail.value;
        assert forall k :: 0 < k < |vs| ==> vs[k] == vs[1..][k - 1] && r[k] == tail.value[k - 1];
        Success(r)
  }

  /**
   * What `add_duration_columns(df, colname)` leaves behind and the exception it
   * raises, if any: second = df[colname] / 1000, minute = second / 60,
   * hour = minute / 60, then the source column is dropped.
   */
  function DurationSpec(f: FrameValue, colname: string): (r: (FrameValue, Option<Error>))
    requires Consistent(f)
    ensures Consistent(r.0) && r.0.height == f.height
    ensures colname !in f.columns ==> r == (f, Some(KeyError(colname)))
    ensures r.1.None? ==> colname !in r.0.columns && colname !in r.0.data
  {
    if colname !in f.columns then (f, Some(KeyError(colname)))
    else
      var second := DivideAll(f.data[colname], 1000.0);
      if second.Failure? then (f, Some(second.error))
      else
        var f1 := Assign(f, "second", second.value);
        var minute := DivideAll(f1.data["second"], 60.0);
        if minute.Failure? then (f1, Some(minute.error))
        else
          var f2 := Assign(f1, "minute", minute.value);
          var hour := DivideAll(f2.data["minute"], 60.0);
          if hour.Failure? then (f2, Some(hour.error))
          else
            var f3 := Assign(f2, "hour", hour.value);
            var dropped := Drop(f3, colname);
            if dropped.Failure? then (f3, Some(dropped.error)) else (dropped.value, None)
  }

  /** `add_duration_columns`, updating the DataFrame in place. */
  method AddDurationColumns(df: Frame, colname: string) returns (err: Option<Error>)
    requires df.Valid()
    modifies df
    ensures df.Valid() && (df.Snapshot(), err) == DurationSpec(old(df.Snapshot()), colname)
  {
    if colname !in df.columns {
      return Some(KeyError(colname));
    }
    var second := DivideAll(df.data[colname], 1000.0);
    if second.Failure? {
      return Some(second.error);
    }
    df.SetColumn("second", second.value);
    var minute := DivideAll(df.data["second"], 60.0);
    if minute.Failure? {
      return Some(minute.error);
    }
    df.SetColumn("minute", minute.value);
    var hour := DivideAll(df.data["minute"], 60.0);
    if hour.Failure? {
      return Some(hour.error);
    }
    df.SetColumn("hour", hour.value);
    err := df.DropColumn(colname);
  }

  // ---------------------------------------------------------------- tags

  /**
   * `extract_tag(list, i)`: `list[i]` with Python indexing (a negative index
   * counts from the end, a string yields one character); an index out of
   * range or a value that cannot be indexed gives None instead of raising.
   */
  function ExtractTag(v: Value, i: int): (r: Value)
    ensures r != Null ==> (v.List? && r in v.items) || (v.Str? && r.Str? && |r.s| == 1 && r.s[0] in v.s)
    ensures !v.List? && !v.Str? ==> r == Null
  {
    match v
    case List(xs) =>
      if 0 <= i < |xs| then xs[i]
      else if -|xs| <= i < 0 then xs[|xs| + i]
      else Null
    case Str(s) =>
      if 0 <= i < |s| then Str([s[i]])
      else if -|s| <= i < 0 then Str([s[|s| + i]])
      else Null
    case _ => Null
  }

  /** `df[colname].apply(lambda x: extract_tag(x, i))` */
  function ExtractAll(vs: seq<Value>, i: int): (r: seq<Value>)
    ensures |r| == |vs| && forall k :: 0 <= k < |vs| ==> r[k] == ExtractTag(vs[k], i)
  {
    seq(|vs|, k requires 0 <= k < |vs| => ExtractTag(vs[k], i))
  }

  /** Python's `str(n)` for a natural number. */
  function Decimal(n: nat): (s: string)
    ensures |s| >= 1 && forall k :: 0 <= k < |s| ==> '0' <= s[k] <= '9'
  {
    if n < 10 then ["0123456789"[n]] else Decimal(n / 10) + ["0123456789"[n % 10]]
  }

  /** The label `'tag{}'.format(i + 1)` of the tag column filled in iteration `i`. */
  function TagName(i: nat): (r: string)
    ensures |r| >= 4 && r[..3] == "tag" && '0' <= r[3] <= '9' && r != "tags"
  {
    assert ("tag" + Decimal(i + 1))[3] == Decimal(i + 1)[0];
    "tag" + Decimal(i + 1)
  }

  /** The frame and the pending exception after the first `i` iterations of the loop in `add_tag_columns`. */
  function TagsLoop(f: FrameValue, colname: string, i: nat): (r: (FrameValue, Option<Error>))
    requires Consistent(f)
    ensures Consistent(r.0) && r.0.height == f.height
    ensures r.1.Some? ==> r.1 == Some(KeyError(colname))
    ensures forall c :: c in f.columns ==> c in r.0.columns
  {
    if i == 0 then (f, None)
    else
      var (g, e) := TagsLoop(f, colname, i - 1);
      if e.Some? then (g, e)
      else if colname !in g.columns then (g, Some(KeyError(colname)))
      else (Assign(g, TagName(i - 1), ExtractAll(g.data[colname], i - 1)), None)
  }

  /** Once an iteration has raised, later iterations do not run. */
  lemma {:induction false} TagsLoopStops(f: FrameValue, colname: string, i: nat, j: nat)
    requires Consistent(f) && i <= j
    requires TagsLoop(f, colname, i).1.Some?
    ensures TagsLoop(f, colname, j) == TagsLoop(f, colname, i)
  {
    if i < j {
      TagsLoopStops(f, colname, i, j - 1);
    }
  }

  /**
   * What `add_tag_columns(df, num_tags, colname)` leaves behind and raises:
   * the loop, then the drop of the literal label 'tags' (not `colname`).
   */
  function TagsSpec(f: FrameValue, numTags: nat, colname: string): (r: (FrameValue, Option<Error>))
    requires Consistent(f)
    ensures Consistent(r.0) && r.0.height == f.height
    ensures r.1.None? ==> "tags" !in r.0.columns && "tags" !in r.0.data
  {
    var (g, e) := TagsLoop(f, colname, numTags);
    if e.Some? then (g, e)
    else
      var dropped := Drop(g, "tags");
      if dropped.Failure? then (g, Some(dropped.error)) else (dropped.value, None)
  }

  /** `add_tag_columns`, assigning one column per iteration of its loop. */
  method AddTagColumns(df: Frame, numTags: nat, colname: string) returns (err: Option<Error>)
    requires df.Valid()
    modifies df
    ensures df.Valid() && (df.Snapshot(), err) == TagsSpec(old(df.Snapshot()), numTags, colname)
  {
    ghost var start := df.Snapshot();
    var i := 0;
    while i < numTags
      invariant 0 <= i <= numTags
      invariant df.Valid()
      invariant TagsLoop(start, colname, i) == (df.Snapshot(), None)
    {
      if colname !in df.columns {
        TagsLoopStops(start, colname, i + 1, numTags);
        return Some(KeyError(colname));
      }
      df.SetColumn(TagName(i), ExtractAll(df.data[colname], i));
      i := i + 1;
    }
    err := df.DropColumn("tags");
  }

  // ---------------------------------------------------------------- casts

  /** A non-empty run of ASCII decimal digits. */
  predicate IsDigits(s: string)
  {
    |s| >= 1 && forall k :: 0 <= k < |s| ==> '0' <= s[k] <= '9'
  }

  /** The number a run of decimal digits denotes, most significant digit first. */
  function DigitsValue(s: string): nat
    requires IsDigits(s)
    decreases |s|
  {
    var last := s[|s| - 1] as int - '0' as int;
    if |s| == 1 then last else DigitsValue(s[..|s| - 1]) * 10 + last
  }

  /** Text that Python's `int()` reads: digits with an optional leading sign. */
  predicate IsIntegerText(s: string)
  {
    IsDigits(s) || (|s| >= 2 && (s[0] == '-' || s[0] == '+') && IsDigits(s[1..]))
  }

  function IntegerText(s: string): int
    requires IsIntegerText(s)
  {
    if IsDigits(s) then DigitsValue(s)
    else if s[0] == '-' then 0 - DigitsValue(s[1..])
    else DigitsValue(s[1..])
  }

  /** `str(n)` of a natural number reads back as `n`. */
  lemma {:induction false} DigitsOfDecimal(n: nat)
    ensures IsDigits(Decimal(n)) && DigitsValue(Decimal(n)) == n
  {
    var s := Decimal(n);
    if n < 10 {
      assert s == ["0123456789"[n]];
      assert "0123456789"[n] as int - '0' as int == n;
    } else {
      DigitsOfDecimal(n / 10);
      assert s[..|s| - 1] == Decimal(n / 10);
      assert s[|s| - 1] as int - '0' as int == n % 10;
    }
  }

  /** The int64 cast reads the decimal text of an integer, with or without its sign, as that integer. */
  lemma CastInt64OfText(n: nat)
    ensures CastInt64(Str(Decimal(n))) == Some(n)
    ensures CastInt64(Str("-" + Decimal(n))) == Some(-(n as int))
    ensures CastInt64(Str("+" + Decimal(n))) == Some(n)
  {
    DigitsOfDecimal(n);
    var neg, pos := "-" + Decimal(n), "+" + Decimal(n);
    assert neg[0] == '-' && neg[1..] == Decimal(n) && !IsDigits(neg);
    assert pos[0] == '+' && pos[1..] == Decimal(n) && !IsDigits(pos);
  }

  /**
   * `astype('int64')` of one cell: integers pass, floats truncate, integer
   * text is read as `int()` reads it, and NaN or anything else fails.
   */
  function CastInt64(v: Value): (r: Option<int>)
    ensures r.Some? <==> v.Int? || v.Real? || (v.Str? && IsIntegerText(v.s))
    ensures v.Int? ==> r == Some(v.i)
    ensures v.Real? ==> r == Some(Trunc(v.r))
  {
    match v
    case Int(n) => Some(n)
    case Real(x) => Some(Trunc(x))
    case Str(s) => if IsIntegerText(s) then Some(IntegerText(s)) else None
    case _ => None
  }

  /** `astype('float64')` of one cell: `None` is NaN, which the cast keeps. */
  function CastFloat64(v: Value): (r: Option<Option<real>>)
    ensures r.Some? <==> v.Int? || v.Real? || v.Null? || (v.Str? && IsIntegerText(v.s))
    ensures r == Some(None) <==> v.Null?
    ensures v.Real? ==> r == Some(Some(v.r))
    ensures v.Int? ==> r == Some(Some(v.i as real))
  {
    match v
    case Int(n) => Some(Some(n as real))
    case Real(x) => Some(Some(x))
    case Null => Some(None)
    case Str(s) => if IsIntegerText(s) then Some(Some(IntegerText(s) as real)) else None
    case _ => None
  }

  /** `pd.to_datetime` reads a number as nanoseconds since the epoch. */
  const NANOS_PER_SECOND: int := 1_000_000_000

  /**
   * `pd.to_datetime` of one cell: a timestamp text, a number of nanoseconds
   * since the epoch (kept as the second it falls in), or NaT (None).
   */
  function ToDatetime(v: Value): (r: Option<Option<int>>)
    ensures r.Some? <==> v.Stamp? || v.Null? || v.Int? || v.Real?
    ensures r == Some(None) <==> v.Null?
    ensures v.Stamp? ==> r == Some(Some(v.t))
    ensures v.Int? ==>
      (r.Some? && r.value.Some? && r.value.value * NANOS_PER_SECOND <= v.i < (r.value.value + 1) * NANOS_PER_SECOND)
  {
    match v
    case Stamp(t) => Some(Some(t))
    case Null => Some(None)
    case Int(n) => Some(Some(n / NANOS_PER_SECOND))
    case Real(x) => Some(Some(Trunc(x) / NANOS_PER_SECOND))
    case _ => None
  }

  /** A column cast cell by cell; it fails as a whole when any cell fails. */
  function CastAll<T>(vs: seq<Value>, cast: Value -> Option<T>): (r: Option<seq<T>>)
    ensures r.Some? <==> forall k :: 0 <= k < |vs| ==> cast(vs[k]).Some?
    ensures r.Some? ==> |r.value| == |vs| && forall k :: 0 <= k < |vs| ==> cast(vs[k]) == Some(r.value[k])
  {
    if vs == [] then Some([])
    else
      var head := cast(vs[0]);
      var tail := CastAll(vs[1..], cast);
      if head.None? || tail.None? then None
      else
        var r := [head.value] + tail.value;
        assert forall k :: 0 < k < |vs| ==> vs[k] == vs[1..][k - 1] && r[k] == tail.value[k - 1];
        Some(r)
  }

  function CastError(column: string): Error
  {
    Error("ValueError", column)
  }

  /** The labels `convert_dtypes` reads: the dtype map's keys, then the three datetime columns. */
  const CONVERTED_COLS: seq<string> :=
    ["id", "project", "description", "second", "minute", "hour", "tag1", "tag2", "tag3", "start", "end", "updated"]

  predicate HasConvertedCols(f: FrameValue)
  {
    && "id" in f.data && "project" in f.data && "description" in f.data
    && "second" in f.data && "minute" in f.data && "hour" in f.data
    && "tag1" in f.data && "tag2" in f.data && "tag3" in f.data
    && "start" in f.data && "end" in f.data && "updated" in f.data
  }

  /**
   * `convert_dtypes(df, dtypes, datetime_cols)`: casts id and second to int64,
   * minute and hour to float64, parses start/end/updated, and yields the typed
   * rows in the frame's own column order.
   */
  function Convert(f: FrameValue): (r: Result<Formatted>)
    requires Consistent(f)
    ensures r.Success? ==> r.value.columns == f.columns && |r.value.rows| == f.height
  {
    var missing := Absent(CONVERTED_COLS, c => c in f.data);
    if missing != [] then Failure(KeyError(missing[0]))
    else
      ConvertedColsPresent(f);
      CastColumns(f)
  }

  lemma ConvertedColsPresent(f: FrameValue)
    requires Absent(CONVERTED_COLS, c => c in f.data) == []
    ensures HasConvertedCols(f)
  {
    assert forall c :: c in CONVERTED_COLS ==> c in f.data;
  }

  /** The casts of `convert_dtypes` once every column it names is present. */
  function CastColumns(f: FrameValue): (r: Result<Formatted>)
    requires Consistent(f) && HasConvertedCols(f)
    ensures r.Success? ==> r.value.columns == f.columns && |r.value.rows| == f.height
    ensures r.Failure? ==> r.error.kind == "ValueError"
  {
      var ids := CastAll(f.data["id"], CastInt64);
      var seconds := CastAll(f.data["second"], CastInt64);
      var minutes := CastAll(f.data["minute"], CastFloat64);
      var hours := CastAll(f.data["hour"], CastFloat64);
      var starts := CastAll(f.data["start"], ToDatetime);
      var ends := CastAll(f.data["end"], ToDatetime);
      var updates := CastAll(f.data["updated"], ToDatetime);
      if ids.None? then Failure(CastError("id"))
      else if seconds.None? then Failure(CastError("second"))
      else if minutes.None? then Failure(CastError("minute"))
      else if hours.None? then Failure(CastError("hour"))
      else if starts.None? then Failure(CastError("start"))
      else if ends.None? then Failure(CastError("end"))
      else if updates.None? then Failure(CastError("updated"))
      else
        Success(Formatted(f.columns, TypedRows(f, ids.value, starts.value, ends.value, updates.value,
                                               seconds.value, minutes.value, hours.value)))
  }

  /** Row `k` of the cast frame gathers cell `k` of every column. */
  function TypedRows(f: FrameValue, ids: seq<int>, starts: seq<Option<int>>, ends: seq<Option<int>>,
                     updates: seq<Option<int>>, seconds: seq<int>, minutes: seq<Option<real>>,
                     hours: seq<Option<real>>): (rows: seq<Row>)
    requires Consistent(f)
    requires "project" in f.data && "description" in f.data
    requires "tag1" in f.data && "tag2" in f.data && "tag3" in f.data
    requires |ids| == |starts| == |ends| == |updates| == |seconds| == |minutes| == |hours| == f.height
    ensures |rows| == f.height
  {
    var project, description := f.data["project"], f.data["description"];
    var tag1, tag2, tag3 := f.data["tag1"], f.data["tag2"], f.data["tag3"];
    seq(f.height, k requires 0 <= k < f.height =>
      Row(ids[k], project[k], description[k], starts[k], ends[k], updates[k],
          seconds[k], minutes[k], hours[k], tag1[k], tag2[k], tag3[k]))
  }

  // ---------------------------------------------------------------- the whole formatter

  /** `get_formatted_dataframe(data)` as a composition of its stages. */
  function FormatSpec(records: seq<RawEntry>): (r: Result<Formatted>)
    ensures r.Success? ==> |r.value.rows| == |records|
  {
    var projected := Project(records);
    if projected.Failure? then Failure(projected.error)
    else
      var (f1, e1) := DurationSpec(projected.value, "dur");
      if e1.Some? then Failure(e1.value)
      else
        var (f2, e2) := TagsSpec(f1, 3, "tags");
        if e2.Some? then Failure(e2.value)
        else Convert(f2)
  }

  /** `get_formatted_dataframe`: builds the frame, mutates it stage by stage, then casts it. */
  method GetFormattedDataframe(records: seq<RawEntry>) returns (r: Result<Formatted>)
    ensures r == FormatSpec(records)
  {
    var projected := Project(records);
    if projected.Failure? {
      return Failure(projected.error);
    }
    var df := new Frame(projected.value);
    var e1 := AddDurationColumns(df, "dur");
    if e1.Some? {
      return Failure(e1.value);
    }
    var e2 := AddTagColumns(df, 3, "tags");
    if e2.Some? {
      return Failure(e2.value);
    }
    r := Convert(df.Snapshot());
  }

  // ---------------------------------------------------------------- properties

  /** `extract_tag` never raises: it follows Python indexing and falls back to None. */
  lemma ExtractTagIndexing(xs: seq<Value>, i: int)
    ensures 0 <= i < |xs| ==> ExtractTag(List(xs), i) == xs[i]
    ensures -|xs| <= i < 0 ==> ExtractTag(List(xs), i) == xs[|xs| + i]
    ensures (i >= |xs| || i < -|xs|) ==> ExtractTag(List(xs), i) == Null
    ensures ExtractTag(Null, i) == Null
  {
  }

  /** tag1..tag3 of a tag list are its first three elements, padded with None when it is shorter. */
  lemma {:induction false} TagColumnsArePaddedPrefix(xs: seq<Value>)
    ensures [ExtractTag(List(xs), 0), ExtractTag(List(xs), 1), ExtractTag(List(xs), 2)] == (xs + [Null, Null, Null])[..3]
  {
  }

  /** Dividing whole numbers by a positive whole number and truncating gives integer division. */
  lemma FloorOfQuotient(m: nat, d: nat)
    requires d > 0
    ensures ((m as real) / (d as real)).Floor == m / d
  {
    var q, r := m / d, m % d;
    assert m == q * d + r;
    assert (m as real) / (d as real) == (q as real) + (r as real) / (d as real);
    assert 0.0 <= (r as real) / (d as real) < 1.0;
  }

  /** After the int64 cast, `second` is the millisecond duration divided by 1000, truncated toward zero. */
  lemma MillisToSeconds(ms: int)
    ensures Trunc(ms as real / 1000.0) == if ms >= 0 then ms / 1000 else -((-ms) / 1000)
  {
    if ms >= 0 {
      FloorOfQuotient(ms, 1000);
    } else {
      FloorOfQuotient(-ms, 1000);
      assert -(ms as real / 1000.0) == ((-ms) as real) / (1000 as real);
    }
  }

  /** The labels after `add_duration_columns`: the selected fields minus dur, plus the three durations. */
  const DURATION_COLS: seq<string> :=
    ["id", "project", "description", "tags", "start", "end", "updated", "second", "minute", "hour"]

  /** The labels after `add_tag_columns`. */
  const FORMATTED_COLS: seq<string> :=
    ["id", "project", "description", "start", "end", "updated", "second", "minute", "hour", "tag1", "tag2", "tag3"]

  /** The formatted labels are the declared table schema's column names, in the same order. */
  lemma FormattedColsAreSchemaOrder()
    ensures FORMATTED_COLS == Names(BQ_TABLE_SCHEMA)
  {
    var names := Names(BQ_TABLE_SCHEMA);
    assert |names| == |FORMATTED_COLS|;
    assert names[0] == "id" && names[1] == "project" && names[2] == "description";
    assert names[3] == "start" && names[4] == "end" && names[5] == "updated";
    assert names[6] == "second" && names[7] == "minute" && names[8] == "hour";
    assert names[9] == "tag1" && names[10] == "tag2" && names[11] == "tag3";
  }

  /** `second / 60` is the duration in milliseconds divided by 60000. */
  lemma MinuteOfSecond(v: Value)
    ensures Divide(Scaled(v, 1000.0), 60.0) == Success(Scaled(v, 60000.0))
  {
    match v
    case Int(n) => assert n as real / 1000.0 / 60.0 == n as real / 60000.0;
    case Real(x) => assert x / 1000.0 / 60.0 == x / 60000.0;
    case _ =>
  }

  /** `minute / 60` is the duration in milliseconds divided by 3600000. */
  lemma HourOfMinute(v: Value)
    ensures Divide(Scaled(v, 60000.0), 60.0) == Success(Scaled(v, 3600000.0))
  {
    match v
    case Int(n) => assert n as real / 60000.0 / 60.0 == n as real / 3600000.0;
    case Real(x) => assert x / 60000.0 / 60.0 == x / 3600000.0;
    case _ =>
  }

  /** A scaled column divided again, cell by cell, is the column scaled by the product. */
  lemma ScaledAllTwice(vs: seq<Value>, d: real, e: real, de: real)
    requires d != 0.0 && e != 0.0 && de != 0.0
    requires forall k :: 0 <= k < |vs| ==> Divide(Scaled(vs[k], d), e) == Success(Scaled(vs[k], de))
    ensures DivideAll(ScaledAll(vs, d), e) == Success(ScaledAll(vs, de))
  {
    var once := ScaledAll(vs, d);
    assert forall k :: 0 <= k < |vs| ==> Divide(once[k], e).Success?;
    var twice := ScaledAll(once, e);
    forall k | 0 <= k < |vs|
      ensures twice[k] == Scaled(vs[k], de)
    {
      assert Divide(once[k], e) == Success(Scaled(vs[k], de));
    }
    assert twice == ScaledAll(vs, de);
  }

  /** Appending the three duration labels to the selected fields and dropping dur gives DURATION_COLS. */
  lemma DurationLabels()
    ensures Without(USE_COLS + ["second", "minute", "hour"], "dur") == DURATION_COLS
  {
    var a := ["id", "project", "description", "tags", "start", "end", "updated"];
    var b := ["second", "minute", "hour"];
    assert "dur" !in a && "dur" !in b;
    assert USE_COLS + b == a + ["dur"] + b;
    WithoutOnce(a, "dur", b);
  }

  /** The frame the duration stage leaves: the durations appended, dur gone, the rest untouched. */
  ghost predicate DurationColumnsOf(g: FrameValue, f: FrameValue)
    requires Consistent(f) && f.columns == USE_COLS
  {
    && g.columns == DURATION_COLS && g.height == f.height
    && "id" in g.data && "project" in g.data && "description" in g.data && "tags" in g.data
    && "start" in g.data && "end" in g.data && "updated" in g.data
    && "second" in g.data && "minute" in g.data && "hour" in g.data
    && g.data["id"] == f.data["id"] && g.data["project"] == f.data["project"]
    && g.data["description"] == f.data["description"] && g.data["tags"] == f.data["tags"]
    && g.data["start"] == f.data["start"] && g.data["end"] == f.data["end"]
    && g.data["updated"] == f.data["updated"]
    && g.data["second"] == ScaledAll(f.data["dur"], 1000.0)
    && g.data["minute"] == ScaledAll(f.data["dur"], 60000.0)
    && g.data["hour"] == ScaledAll(f.data["dur"], 3600000.0)
  }

  /** The three assignments and the drop of the duration stage, on the projected frame. */
  lemma DurationFrame(f: FrameValue, s: seq<Value>, m: seq<Value>, h: seq<Value>)
    requires Consistent(f) && f.columns == USE_COLS
    requires |s| == |m| == |h| == f.height
    ensures var f3 := Assign(Assign(Assign(f, "second", s), "minute", m), "hour", h);
      && f3.columns == USE_COLS + ["second", "minute", "hour"]
      && Drop(f3, "dur").Success?
      && Drop(f3, "dur").value.columns == DURATION_COLS
      && Drop(f3, "dur").value.data == f.data["second" := s]["minute" := m]["hour" := h] - {"dur"}
  {
    assert "second" !in USE_COLS && "minute" !in USE_COLS && "hour" !in USE_COLS;
    var f1 := Assign(f, "second", s);
    assert f1.columns == USE_COLS + ["second"];
    var f2 := Assign(f1, "minute", m);
    assert "minute" !in f1.columns;
    assert f2.columns == USE_COLS + ["second", "minute"];
    var f3 := Assign(f2, "hour", h);
    assert "hour" !in f2.columns;
    assert f3.columns == USE_COLS + ["second", "minute", "hour"];
    DurationLabels();
  }

  /** Which cells the duration stage leaves under each label. */
  lemma DurationData(f: FrameValue, s: seq<Value>, m: seq<Value>, h: seq<Value>, g: FrameValue)
    requires Consistent(f) && f.columns == USE_COLS
    requires g.columns == DURATION_COLS && g.height == f.height
    requires g.data == f.data["second" := s]["minute" := m]["hour" := h] - {"dur"}
    requires s == ScaledAll(f.data["dur"], 1000.0)
    requires m == ScaledAll(f.data["dur"], 60000.0)
    requires h == ScaledAll(f.data["dur"], 3600000.0)
    ensures DurationColumnsOf(g, f)
  {
    UseColsPresent(f);
    DurationMap(f.data, s, m, h);
  }

  /** A consistent frame labelled `USE_COLS` has a column under each of those labels. */
  lemma UseColsPresent(f: FrameValue)
    requires Consistent(f) && f.columns == USE_COLS
    ensures "id" in f.data && "project" in f.data && "description" in f.data && "tags" in f.data
    ensures "start" in f.data && "end" in f.data && "updated" in f.data && "dur" in f.data
  {
    assert f.columns[0] == "id" && f.columns[1] == "project" && f.columns[2] == "description";
    assert f.columns[3] == "tags" && f.columns[4] == "start" && f.columns[5] == "end";
    assert f.columns[6] == "updated" && f.columns[7] == "dur";
  }

  /** The map updates of the duration stage leave the other labels' columns alone. */
  lemma DurationMap(d: map<string, seq<Value>>, s: seq<Value>, m: seq<Value>, h: seq<Value>)
    requires "id" in d && "project" in d && "description" in d && "tags" in d
    requires "start" in d && "end" in d && "updated" in d
    ensures var g := d["second" := s]["minute" := m]["hour" := h] - {"dur"};
      && "id" in g && "project" in g && "description" in g && "tags" in g
      && "start" in g && "end" in g && "updated" in g
      && "second" in g && "minute" in g && "hour" in g
      && g["id"] == d["id"] && g["project"] == d["project"]
      && g["description"] == d["description"] && g["tags"] == d["tags"]
      && g["start"] == d["start"] && g["end"] == d["end"] && g["updated"] == d["updated"]
      && g["second"] == s && g["minute"] == m && g["hour"] == h
  {
  }

  /** On the projected frame, the duration stage succeeds exactly when every dur cell is a number or NaN. */
  lemma DurationStage(f: FrameValue)
    requires Consistent(f) && f.columns == USE_COLS
    ensures DurationSpec(f, "dur").1.None? <==> DivideAll(f.data["dur"], 1000.0).Success?
    ensures DurationSpec(f, "dur").1.None? ==> DurationColumnsOf(DurationSpec(f, "dur").0, f)
  {
    var dur := f.data["dur"];
    var second := DivideAll(dur, 1000.0);
    if second.Success? {
      forall k | 0 <= k < |dur|
        ensures Divide(Scaled(dur[k], 1000.0), 60.0) == Success(Scaled(dur[k], 60000.0))
        ensures Divide(Scaled(dur[k], 60000.0), 60.0) == Success(Scaled(dur[k], 3600000.0))
      {
        MinuteOfSecond(dur[k]);
        HourOfMinute(dur[k]);
      }
      ScaledAllTwice(dur, 1000.0, 60.0, 60000.0);
      ScaledAllTwice(dur, 60000.0, 60.0, 3600000.0);
      var s, m, h := ScaledAll(dur, 1000.0), ScaledAll(dur, 60000.0), ScaledAll(dur, 3600000.0);
      var f1 := Assign(f, "second", s);
      assert DivideAll(f1.data["second"], 60.0) == Success(m);
      var f2 := Assign(f1, "minute", m);
      assert DivideAll(f2.data["minute"], 60.0) == Success(h);
      var f3 := Assign(f2, "hour", h);
      DurationFrame(f, s, m, h);
      assert DurationSpec(f, "dur") == (Drop(f3, "dur").value, None);
      DurationData(f, s, m, h, Drop(f3, "dur").value);
    }
  }

  /** The frame the tag stage leaves: tag1..tag3 appended, tags gone, the rest untouched. */
  ghost predicate TagColumnsOf(h: FrameValue, g: FrameValue)
    requires "tags" in g.data
  {
    && h.columns == FORMATTED_COLS && h.height == g.height
    && "id" in g.data && "project" in g.data && "description" in g.data
    && "start" in g.data && "end" in g.data && "updated" in g.data
    && "second" in g.data && "minute" in g.data && "hour" in g.data
    && h.data == g.data["tag1" := ExtractAll(g.data["tags"], 0)]
                       ["tag2" := ExtractAll(g.data["tags"], 1)]
                       ["tag3" := ExtractAll(g.data["tags"], 2)] - {"tags"}
  }

  /** The tag labels `'tag{}'.format(i + 1)` of the three iterations. */
  lemma TagNames()
    ensures TagName(0) == "tag1" && TagName(1) == "tag2" && TagName(2) == "tag3"
  {
    assert Decimal(1) == "1" && Decimal(2) == "2" && Decimal(3) == "3";
  }

  /** Appending tag1..tag3 to the duration labels and dropping tags gives FORMATTED_COLS. */
  lemma TagLabels()
    ensures Without(DURATION_COLS + ["tag1", "tag2", "tag3"], "tags") == FORMATTED_COLS
  {
    var a := ["id", "project", "description"];
    var b := ["start", "end", "updated", "second", "minute", "hour", "tag1", "tag2", "tag3"];
    assert "tags" !in a && "tags" !in b;
    assert DURATION_COLS + ["tag1", "tag2", "tag3"] == a + ["tags"] + b;
    WithoutOnce(a, "tags", b);
  }

  /** One more iteration of the tag loop, when none has raised and the source column exists. */
  lemma TagsLoopStep(f: FrameValue, colname: string, i: nat)
    requires Consistent(f)
    requires TagsLoop(f, colname, i).1.None? && colname in TagsLoop(f, colname, i).0.columns
    ensures var g := TagsLoop(f, colname, i).0;
      TagsLoop(f, colname, i + 1) == (Assign(g, TagName(i), ExtractAll(g.data[colname], i)), None)
  {
  }

  /** The three iterations of the tag loop on the frame the duration stage leaves. */
  lemma TagsLoopThree(g: FrameValue)
    requires Consistent(g) && g.columns == DURATION_COLS
    ensures "tags" in g.data
    ensures var tags := g.data["tags"];
      TagsLoop(g, "tags", 3) ==
        (Assign(Assign(Assign(g, "tag1", ExtractAll(tags, 0)), "tag2", ExtractAll(tags, 1)), "tag3", ExtractAll(tags, 2)), None)
  {
    TagNames();
    assert "tags" in g.data;
    var tags := g.data["tags"];
    TagsLoopStep(g, "tags", 0);
    var g1 := Assign(g, "tag1", ExtractAll(tags, 0));
    assert g1.data["tags"] == tags;
    TagsLoopStep(g, "tags", 1);
    var g2 := Assign(g1, "tag2", ExtractAll(tags, 1));
    assert g2.data["tags"] == tags;
    TagsLoopStep(g, "tags", 2);
  }

  /** The labels after the three tag assignments. */
  lemma TagAssignLabels(g: FrameValue, t1: seq<Value>, t2: seq<Value>, t3: seq<Value>)
    requires Consistent(g) && g.columns == DURATION_COLS
    requires |t1| == |t2| == |t3| == g.height
    ensures Assign(Assign(Assign(g, "tag1", t1), "tag2", t2), "tag3", t3).columns == DURATION_COLS + ["tag1", "tag2", "tag3"]
  {
    assert "tag1" !in DURATION_COLS && "tag2" !in DURATION_COLS && "tag3" !in DURATION_COLS;
    var g1 := Assign(g, "tag1", t1);
    assert g1.columns == DURATION_COLS + ["tag1"];
    assert "tag2" !in g1.columns;
    var g2 := Assign(g1, "tag2", t2);
    assert g2.columns == DURATION_COLS + ["tag1", "tag2"];
    assert "tag3" !in g2.columns;
  }

  /** On the frame the duration stage leaves, splitting three tags always succeeds. */
  lemma TagsStage(g: FrameValue)
    requires Consistent(g) && g.columns == DURATION_COLS
    ensures "tags" in g.data
    ensures TagsSpec(g, 3, "tags").1.None?
    ensures TagColumnsOf(TagsSpec(g, 3, "tags").0, g)
  {
    TagsLoopThree(g);
    var tags := g.data["tags"];
    var g3 := TagsLoop(g, "tags", 3).0;
    TagAssignLabels(g, ExtractAll(tags, 0), ExtractAll(tags, 1), ExtractAll(tags, 2));
    TagLabels();
    assert "tags" in g3.columns;
    assert TagsSpec(g, 3, "tags") == (Drop(g3, "tags").value, None);
    DurationColsPresent(g);
  }

  lemma DurationColsPresent(g: FrameValue)
    requires Consistent(g) && g.columns == DURATION_COLS
    ensures "id" in g.data && "project" in g.data && "description" in g.data && "tags" in g.data
    ensures "start" in g.data && "end" in g.data && "updated" in g.data
    ensures "second" in g.data && "minute" in g.data && "hour" in g.data
  {
    assert g.columns[0] == "id" && g.columns[1] == "project" && g.columns[2] == "description";
    assert g.columns[3] == "tags" && g.columns[4] == "start" && g.columns[5] == "end";
    assert g.columns[6] == "updated" && g.columns[7] == "second" && g.columns[8] == "minute";
    assert g.columns[9] == "hour";
  }

  // ---------------------------------------------------------------- the formatter, row by row

  /**
   * The row one report entry becomes, computed from that entry alone: the
   * reference the column-by-column formatter is proved against.  None when
   * some cast fails.
   */
  function ExpectedRow(e: RawEntry): (r: Option<Row>)
    ensures r.Some? <==>
      && IsInt64Cell(Cell(e, "id")) && IsNumber(Cell(e, "dur"))
      && IsDatetimeCell(Cell(e, "start")) && IsDatetimeCell(Cell(e, "end")) && IsDatetimeCell(Cell(e, "updated"))
    ensures r.Some? && Cell(e, "dur").Int? && Cell(e, "dur").i >= 0 ==> r.value.second == Cell(e, "dur").i / 1000
    ensures r.Some? ==> r.value.minute.Some? && r.value.hour.Some?
  {
    if Cell(e, "dur").Int? then MillisToSeconds(Cell(e, "dur").i); ExpectedRowOf(e) else ExpectedRowOf(e)
  }

  predicate IsNumber(v: Value)
  {
    v.Int? || v.Real?
  }

  /** A cell the int64 cast accepts: a number or integer text. */
  predicate IsInt64Cell(v: Value)
  {
    IsNumber(v) || (v.Str? && IsIntegerText(v.s))
  }

  /** A cell `pd.to_datetime` accepts: a timestamp, a number of nanoseconds or NaN. */
  predicate IsDatetimeCell(v: Value)
  {
    v.Stamp? || v.Null? || IsNumber(v)
  }

  function ExpectedRowOf(e: RawEntry): Option<Row>
  {
    var id := CastInt64(Cell(e, "id"));
    var dur := Cell(e, "dur");
    var start := ToDatetime(Cell(e, "start"));
    var end := ToDatetime(Cell(e, "end"));
    var updated := ToDatetime(Cell(e, "updated"));
    if id.None? || !IsNumber(dur) || start.None? || end.None? || updated.None? then None
    else
      var ms := if dur.Int? then dur.i as real else dur.r;
      var tags := Cell(e, "tags");
      Some(Row(id.value, Cell(e, "project"), Cell(e, "description"), start.value, end.value, updated.value,
               Trunc(ms / 1000.0), Some(ms / 60000.0), Some(ms / 3600000.0),
               ExtractTag(tags, 0), ExtractTag(tags, 1), ExtractTag(tags, 2)))
  }

  /** Every selected field is the key of at least one entry. */
  predicate AllFieldsPresent(records: seq<RawEntry>)
  {
    forall c :: c in USE_COLS ==> HasField(records, c)
  }

  /** When every field is present, the projection keeps one cell per entry and field. */
  lemma ProjectAllPresent(records: seq<RawEntry>)
    requires AllFieldsPresent(records)
    ensures Project(records) == Success(Projected(records, USE_COLS))
  {
    NoneAbsent(USE_COLS, c => HasField(records, c));
  }

  /** A dur cell that divides without error is a number or NaN. */
  lemma DivisibleCell(v: Value)
    requires Divide(v, 1000.0).Success?
    ensures v.Int? || v.Real? || v.Null?
  {
  }

  /** One entry's casts, as the column-wise formatter performs them on its cells. */
  lemma EntryCasts(e: RawEntry)
    requires Divide(Cell(e, "dur"), 1000.0).Success?
    ensures var dur := Cell(e, "dur");
      && ExpectedRow(e).Some? ==
         (&& CastInt64(Cell(e, "id")).Some?
          && CastInt64(Scaled(dur, 1000.0)).Some?
          && CastFloat64(Scaled(dur, 60000.0)).Some?
          && CastFloat64(Scaled(dur, 3600000.0)).Some?
          && ToDatetime(Cell(e, "start")).Some?
          && ToDatetime(Cell(e, "end")).Some?
          && ToDatetime(Cell(e, "updated")).Some?)
      && (ExpectedRow(e).Some? ==>
          && ExpectedRow(e).value.second == CastInt64(Scaled(dur, 1000.0)).value
          && ExpectedRow(e).value.minute == CastFloat64(Scaled(dur, 60000.0)).value
          && ExpectedRow(e).value.hour == CastFloat64(Scaled(dur, 3600000.0)).value)
  {
    DivisibleCell(Cell(e, "dur"));
  }

  /** The frame the formatter hands to `convert_dtypes`, described column by column from the report. */
  ghost predicate FormattedFrameOf(f: FrameValue, records: seq<RawEntry>)
  {
    var dur := FieldColumn(records, "dur");
    var tags := FieldColumn(records, "tags");
    && Consistent(f) && HasConvertedCols(f) && f.columns == FORMATTED_COLS && f.height == |records|
    && f.data["id"] == FieldColumn(records, "id")
    && f.data["project"] == FieldColumn(records, "project")
    && f.data["description"] == FieldColumn(records, "description")
    && f.data["start"] == FieldColumn(records, "start")
    && f.data["end"] == FieldColumn(records, "end")
    && f.data["updated"] == FieldColumn(records, "updated")
    && f.data["second"] == ScaledAll(dur, 1000.0)
    && f.data["minute"] == ScaledAll(dur, 60000.0)
    && f.data["hour"] == ScaledAll(dur, 3600000.0)
    && f.data["tag1"] == ExtractAll(tags, 0)
    && f.data["tag2"] == ExtractAll(tags, 1)
    && f.data["tag3"] == ExtractAll(tags, 2)
  }

  /** The map updates of the tag stage leave the other labels' columns alone. */
  lemma TagsMap(d: map<string, seq<Value>>, t1: seq<Value>, t2: seq<Value>, t3: seq<Value>)
    requires "id" in d && "project" in d && "description" in d
    requires "start" in d && "end" in d && "updated" in d
    requires "second" in d && "minute" in d && "hour" in d
    ensures var g := d["tag1" := t1]["tag2" := t2]["tag3" := t3] - {"tags"};
      && "id" in g && "project" in g && "description" in g
      && "start" in g && "end" in g && "updated" in g
      && "second" in g && "minute" in g && "hour" in g
      && "tag1" in g && "tag2" in g && "tag3" in g
      && g["id"] == d["id"] && g["project"] == d["project"] && g["description"] == d["description"]
      && g["start"] == d["start"] && g["end"] == d["end"] && g["updated"] == d["updated"]
      && g["second"] == d["second"] && g["minute"] == d["minute"] && g["hour"] == d["hour"]
      && g["tag1"] == t1 && g["tag2"] == t2 && g["tag3"] == t3
  {
  }

  /** The columns of the frame after both stages, traced back to the report. */
  lemma StagesData(records: seq<RawEntry>, f0: FrameValue, f1: FrameValue, f2: FrameValue)
    requires f0 == Projected(records, USE_COLS)
    requires Consistent(f1) && DurationColumnsOf(f1, f0)
    requires Consistent(f2) && TagColumnsOf(f2, f1)
    ensures FormattedFrameOf(f2, records)
  {
    var tags := f1.data["tags"];
    TagsMap(f1.data, ExtractAll(tags, 0), ExtractAll(tags, 1), ExtractAll(tags, 2));
    assert "id" in USE_COLS && "project" in USE_COLS && "description" in USE_COLS && "tags" in USE_COLS;
    assert "start" in USE_COLS && "end" in USE_COLS && "updated" in USE_COLS && "dur" in USE_COLS;
  }

  /** With every field present and every dur cell divisible, the formatter reaches the cast stage with this frame. */
  lemma PipelineFrame(records: seq<RawEntry>) returns (f2: FrameValue)
    requires AllFieldsPresent(records)
    requires DivideAll(FieldColumn(records, "dur"), 1000.0).Success?
    ensures FormattedFrameOf(f2, records) && FormatSpec(records) == Convert(f2)
  {
    ProjectAllPresent(records);
    var f0 := Projected(records, USE_COLS);
    assert "dur" in USE_COLS;
    DurationStage(f0);
    var f1 := DurationSpec(f0, "dur").0;
    TagsStage(f1);
    f2 := TagsSpec(f1, 3, "tags").0;
    FormatStages(records, f0, f1, f2);
    StagesData(records, f0, f1, f2);
  }

  /** The formatter is the composition of its stages when none raises. */
  lemma FormatStages(records: seq<RawEntry>, f0: FrameValue, f1: FrameValue, f2: FrameValue)
    requires Project(records) == Success(f0)
    requires DurationSpec(f0, "dur") == (f1, None)
    requires TagsSpec(f1, 3, "tags") == (f2, None)
    ensures FormatSpec(records) == Convert(f2)
  {
  }

  /** The cast stage skips its KeyError check on a frame that has every converted column. */
  lemma ConvertPresent(f: FrameValue)
    requires Consistent(f) && HasConvertedCols(f)
    ensures Convert(f) == CastColumns(f)
  {
    NoneAbsent(CONVERTED_COLS, c => c in f.data);
  }

  /** Every cast of `convert_dtypes` succeeds on row `k`. */
  ghost predicate CastsAt(f: FrameValue, k: nat)
    requires Consistent(f) && HasConvertedCols(f) && k < f.height
  {
    && CastInt64(f.data["id"][k]).Some?
    && CastInt64(f.data["second"][k]).Some?
    && CastFloat64(f.data["minute"][k]).Some?
    && CastFloat64(f.data["hour"][k]).Some?
    && ToDatetime(f.data["start"][k]).Some?
    && ToDatetime(f.data["end"][k]).Some?
    && ToDatetime(f.data["updated"][k]).Some?
  }

  /** Row `k` of the cast frame, read off its cells. */
  function CastRow(f: FrameValue, k: nat): Row
    requires Consistent(f) && HasConvertedCols(f) && k < f.height && CastsAt(f, k)
  {
    Row(CastInt64(f.data["id"][k]).value, f.data["project"][k], f.data["description"][k],
        ToDatetime(f.data["start"][k]).value, ToDatetime(f.data["end"][k]).value,
        ToDatetime(f.data["updated"][k]).value,
        CastInt64(f.data["second"][k]).value, CastFloat64(f.data["minute"][k]).value,
        CastFloat64(f.data["hour"][k]).value,
        f.data["tag1"][k], f.data["tag2"][k], f.data["tag3"][k])
  }

  /** The casts succeed exactly when they succeed on every row, and then give each row's cells. */
  lemma CastColumnsByRow(f: FrameValue)
    requires Consistent(f) && HasConvertedCols(f)
    ensures CastColumns(f).Success? <==> forall k :: 0 <= k < f.height ==> CastsAt(f, k)
    ensures CastColumns(f).Success? ==>
      && CastColumns(f).value.columns == f.columns
      && |CastColumns(f).value.rows| == f.height
      && forall k :: 0 <= k < f.height ==> CastColumns(f).value.rows[k] == CastRow(f, k)
  {
    if forall k :: 0 <= k < f.height ==> CastsAt(f, k) {
      forall k | 0 <= k < f.height
        ensures CastInt64(f.data["id"][k]).Some? && CastInt64(f.data["second"][k]).Some?
        ensures CastFloat64(f.data["minute"][k]).Some? && CastFloat64(f.data["hour"][k]).Some?
        ensures ToDatetime(f.data["start"][k]).Some? && ToDatetime(f.data["end"][k]).Some?
        ensures ToDatetime(f.data["updated"][k]).Some?
      {
        assert CastsAt(f, k);
      }
    }
    if CastColumns(f).Success? {
      forall k | 0 <= k < f.height
        ensures CastsAt(f, k) && CastColumns(f).value.rows[k] == CastRow(f, k)
      {
      }
    }
  }

  /** On one row, the casts of the frame the stages build are those of the row-wise reference. */
  lemma EntryAt(f: FrameValue, records: seq<RawEntry>, k: nat)
    requires FormattedFrameOf(f, records) && k < |records|
    requires Divide(Cell(records[k], "dur"), 1000.0).Success?
    ensures CastsAt(f, k) <==> ExpectedRow(records[k]).Some?
    ensures CastsAt(f, k) ==> ExpectedRow(records[k]) == Some(CastRow(f, k))
  {
    RowOfCells(f, k, records[k]);
  }

  /** Row `k` of a frame whose cells are those the stages derive from entry `e` casts as `e`'s expected row. */
  lemma RowOfCells(f: FrameValue, k: nat, e: RawEntry)
    requires Consistent(f) && HasConvertedCols(f) && k < f.height
    requires "tag1" in f.data && "tag2" in f.data && "tag3" in f.data
    requires Divide(Cell(e, "dur"), 1000.0).Success?
    requires f.data["id"][k] == Cell(e, "id") && f.data["project"][k] == Cell(e, "project")
    requires f.data["description"][k] == Cell(e, "description") && f.data["start"][k] == Cell(e, "start")
    requires f.data["end"][k] == Cell(e, "end") && f.data["updated"][k] == Cell(e, "updated")
    requires f.data["second"][k] == Scaled(Cell(e, "dur"), 1000.0)
    requires f.data["minute"][k] == Scaled(Cell(e, "dur"), 60000.0)
    requires f.data["hour"][k] == Scaled(Cell(e, "dur"), 3600000.0)
    requires f.data["tag1"][k] == ExtractTag(Cell(e, "tags"), 0)
    requires f.data["tag2"][k] == ExtractTag(Cell(e, "tags"), 1)
    requires f.data["tag3"][k] == ExtractTag(Cell(e, "tags"), 2)
    ensures CastsAt(f, k) <==> ExpectedRow(e).Some?
    ensures CastsAt(f, k) ==> ExpectedRow(e) == Some(CastRow(f, k))
  {
    EntryCasts(e);
  }

  /** The cast stage, on the frame the earlier stages build, computes each entry's expected row. */
  lemma CastRowwise(f: FrameValue, records: seq<RawEntry>)
    requires FormattedFrameOf(f, records)
    requires DivideAll(FieldColumn(records, "dur"), 1000.0).Success?
    ensures CastColumns(f).Success? <==> forall k :: 0 <= k < |records| ==> ExpectedRow(records[k]).Some?
    ensures CastColumns(f).Success? ==>
      && CastColumns(f).value.columns == FORMATTED_COLS
      && |CastColumns(f).value.rows| == |records|
      && forall k :: 0 <= k < |records| ==> ExpectedRow(records[k]) == Some(CastColumns(f).value.rows[k])
  {
    forall k | 0 <= k < |records|
      ensures CastsAt(f, k) <==> ExpectedRow(records[k]).Some?
      ensures CastsAt(f, k) ==> ExpectedRow(records[k]) == Some(CastRow(f, k))
    {
      assert Divide(FieldColumn(records, "dur")[k], 1000.0).Success?;
      EntryAt(f, records, k);
    }
    CastsMatchRows(f, records);
  }

  /** Casts that agree with the reference on every row agree with it on the whole frame. */
  lemma CastsMatchRows(f: FrameValue, records: seq<RawEntry>)
    requires Consistent(f) && HasConvertedCols(f) && f.columns == FORMATTED_COLS && f.height == |records|
    requires forall k :: 0 <= k < |records| ==> (CastsAt(f, k) <==> ExpectedRow(records[k]).Some?)
    requires forall k :: 0 <= k < |records| ==> CastsAt(f, k) ==> ExpectedRow(records[k]) == Some(CastRow(f, k))
    ensures CastColumns(f).Success? <==> forall k :: 0 <= k < |records| ==> ExpectedRow(records[k]).Some?
    ensures CastColumns(f).Success? ==>
      && CastColumns(f).value.columns == FORMATTED_COLS
      && |CastColumns(f).value.rows| == |records|
      && forall k :: 0 <= k < |records| ==> ExpectedRow(records[k]) == Some(CastColumns(f).value.rows[k])
  {
    CastColumnsByRow(f);
  }

  /** A selected field that no entry carries makes the projection raise KeyError. */
  lemma FormatFailsWithoutField(records: seq<RawEntry>, field: string)
    requires field in USE_COLS && !HasField(records, field)
    ensures FormatSpec(records).Failure? && FormatSpec(records).error.kind == "KeyError"
  {
    assert field in Absent(USE_COLS, c => HasField(records, c));
  }

  /** An empty report has no columns at all, so formatting it raises KeyError. */
  lemma FormatOfNoEntriesFails()
    ensures FormatSpec([]).Failure? && FormatSpec([]).error.kind == "KeyError"
  {
    FormatFailsWithoutField([], "id");
  }

  /** A duration cell that is neither a number nor missing makes `add_duration_columns` raise TypeError. */
  lemma FormatFailsOnBadDuration(records: seq<RawEntry>)
    requires AllFieldsPresent(records)
    requires DivideAll(FieldColumn(records, "dur"), 1000.0).Failure?
    ensures FormatSpec(records).Failure? && FormatSpec(records).error.kind == "TypeError"
  {
    ProjectAllPresent(records);
    assert "dur" in USE_COLS;
  }

  /**
   * With every field present and every duration divisible, formatting succeeds
   * exactly when every entry's row casts; the rows are then the entries' rows
   * in report order, under the table schema's column names.
   */
  lemma FormatIsRowwise(records: seq<RawEntry>)
    requires AllFieldsPresent(records)
    requires DivideAll(FieldColumn(records, "dur"), 1000.0).Success?
    ensures FormatSpec(records).Success? <==> forall k :: 0 <= k < |records| ==> ExpectedRow(records[k]).Some?
    ensures FormatSpec(records).Success? ==>
      && FormatSpec(records).value.columns == Names(BQ_TABLE_SCHEMA)
      && |FormatSpec(records).value.rows| == |records|
      && forall k :: 0 <= k < |records| ==> ExpectedRow(records[k]) == Some(FormatSpec(records).value.rows[k])
  {
    var f2 := PipelineFrame(records);
    ConvertPresent(f2);
    CastRowwise(f2, records);
    FormattedColsAreSchemaOrder();
  }

  /** A duration that cannot be divided cannot be cast to a float either. */
  lemma BadDurationHasNoRow(records: seq<RawEntry>) returns (k: nat)
    requires DivideAll(FieldColumn(records, "dur"), 1000.0).Failure?
    ensures k < |records| && ExpectedRow(records[k]).None?
  {
    var dur := FieldColumn(records, "dur");
    k :| 0 <= k < |records| && Divide(dur[k], 1000.0).Failure?;
  }

  /**
   * `get_formatted_dataframe` succeeds exactly when all eight fields occur in
   * the report and every entry has a numeric id and duration and parseable (or
   * missing) timestamps.
   */
  lemma FormatSucceedsIffEveryRowCasts(records: seq<RawEntry>)
    ensures FormatSpec(records).Success? <==>
      AllFieldsPresent(records) && forall k :: 0 <= k < |records| ==> ExpectedRow(records[k]).Some?
  {
    if !AllFieldsPresent(records) {
      var field :| field in USE_COLS && !HasField(records, field);
      FormatFailsWithoutField(records, field);
    } else if DivideAll(FieldColumn(records, "dur"), 1000.0).Failure? {
      FormatFailsOnBadDuration(records);
      var k := BadDurationHasNoRow(records);
    } else {
      FormatIsRowwise(records);
    }
  }

  /** An entry without a duration gets a NaN second, which the int64 cast rejects. */
  lemma FormatFailsOnMissingDuration(records: seq<RawEntry>, k: nat)
    requires k < |records| && "dur" !in records[k]
    ensures FormatSpec(records).Failure?
  {
    FormatSucceedsIffEveryRowCasts(records);
  }
}
