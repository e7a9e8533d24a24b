/**
 * The part of a pandas DataFrame the formatter relies on: an ordered list of
 * column labels, a column per name, and a common height.  Assigning a column
 * replaces it in place when the name exists and appends it otherwise;
 * dropping a name that is absent raises KeyError.
 */
module Frames {
  import opened Wrappers
  import opened Records

  datatype FrameValue = FrameValue(columns: seq<string>, data: map<string, seq<Value>>, height: nat)

  /** Every name has a column, every column a name, and all columns have the frame's height. */
  ghost predicate Consistent(f: FrameValue)
  {
    && f.data.Keys == set c | c in f.columns
    && (forall c :: c in f.data ==> |f.data[c]| == f.height)
  }

  function KeyError(name: string): Error
  {
    Error("KeyError", name)
  }

  /** `columns` without any occurrence of `name`, order kept. */
  function Without(columns: seq<string>, name: string): (r: seq<string>)
    ensures forall c :: c in r <==> c in columns && c != name
  {
    if columns == [] then []
    else (if columns[0] == name then [] else [columns[0]]) + Without(columns[1..], name)
  }

  lemma {:induction false} WithoutAbsent(columns: seq<string>, name: string)
    requires name !in columns
    ensures Without(columns, name) == columns
  {
    if columns != [] {
      WithoutAbsent(columns[1..], name);
    }
  }

  lemma {:induction false} WithoutConcat(xs: seq<string>, ys: seq<string>, name: string)
    ensures Without(xs + ys, name) == Without(xs, name) + Without(ys, name)
  {
    if xs != [] {
      assert (xs + ys)[0] == xs[0] && (xs + ys)[1..] == xs[1..] + ys;
      WithoutConcat(xs[1..], ys, name);
      var head := if xs[0] == name then [] else [xs[0]];
      calc {
        Without(xs + ys, name);
        head + Without(xs[1..] + ys, name);
        head + (Without(xs[1..], name) + Without(ys, name));
        (head + Without(xs[1..], name)) + Without(ys, name);
      }
    } else {
      assert xs + ys == ys;
    }
  }

  lemma WithoutSingle(name: string)
    ensures Without([name], name) == []
  {
  }

  lemma WithoutAround(a: seq<string>, name: string, b: seq<string>)
    ensures Without(a + [name] + b, name) == Without(a, name) + Without([name], name) + Without(b, name)
  {
    WithoutConcat(a + [name], b, name);
    WithoutConcat(a, [name], name);
  }

  /** Dropping a label that occurs once removes exactly that occurrence. */
  lemma WithoutOnce(a: seq<string>, name: string, b: seq<string>)
    requires name !in a && name !in b
    ensures Without(a + [name] + b, name) == a + b
  {
    WithoutAround(a, name, b);
    WithoutSingle(name);
    WithoutAbsent(a, name);
    WithoutAbsent(b, name);
    assert a + [] == a;
  }

  /** `df[name] = values`. */
  function Assign(f: FrameValue, name: string, values: seq<Value>): (g: FrameValue)
    requires Consistent(f) && |values| == f.height
    ensures Consistent(g) && g.height == f.height
    ensures g.data == f.data[name := values]
    ensures g.columns == if name in f.columns then f.columns else f.columns + [name]
  {
    FrameValue(if name in f.columns then f.columns else f.columns + [name], f.data[name := values], f.height)
  }

  /** `df.drop(columns=name)`: KeyError when the label is absent. */
  function Drop(f: FrameValue, name: string): (r: Result<FrameValue>)
    requires Consistent(f)
    ensures r.Failure? <==> name !in f.columns
    ensures r.Failure? ==> r.error == KeyError(name)
    ensures r.Success? ==> Consistent(r.value) && r.value.height == f.height
    ensures r.Success? ==> r.value.columns == Without(f.columns, name)
    ensures r.Success? ==> r.value.data == f.data - {name}
  {
    if name !in f.columns then Failure(KeyError(name))
    else Success(FrameValue(Without(f.columns, name), f.data - {name}, f.height))
  }

  /** A DataFrame object whose columns the formatter assigns and drops in place. */
  class Frame {
    var columns: seq<string>
    var data: map<string, seq<Value>>
    var height: nat

    function Snapshot(): FrameValue
      reads this
    {
      FrameValue(columns, data, height)
    }

    ghost predicate Valid()
      reads this
    {
      Consistent(Snapshot())
    }

    constructor (v: FrameValue)
      requires Consistent(v)
      ensures Valid() && Snapshot() == v
    {
      columns, data, height := v.columns, v.data, v.height;
    }

    /** `df[name] = values` */
    method SetColumn(name: string, values: seq<Value>)
      requires Valid() && |values| == height
      modifies this
      ensures Valid() && Snapshot() == Assign(old(Snapshot()), name, values)
    {
      if name !in columns {
        columns := columns + [name];
      }
      data := data[name := values];
    }

    /** `df.drop(columns=name, inplace=True)`; on KeyError nothing changes. */
    method DropColumn(name: string) returns (err: Option<Error>)
      requires Valid()
      modifies this
      ensures Valid()
      ensures Drop(old(Snapshot()), name).Failure? ==> err == Some(KeyError(name)) && Snapshot() == old(Snapshot())
      ensures Drop(old(Snapshot()), name).Success? ==> err == None && Snapshot() == Drop(old(Snapshot()), name).value
    {
      if name !in columns {
        return Some(KeyError(name));
      }
      columns := Without(columns, name);
      data := data - {name};
      err := None;
    }
  }
}
