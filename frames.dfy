/**
 * The data frame the pipeline works on: a sequence of named columns and a
 * sequence of rows of cells. Column lookup and column assignment follow
 * pandas' df[name] and df[name] = values; the frame object itself, whose
 * columns and rows are changed in place, is the class Frame.
 */
module Frames {
  import opened Wrappers
  import opened Text

  /** One cell: NaN/None, a text, or a number produced by a coercion. */
  datatype Value = Missing | Str(text: string) | Num(num: int)

  datatype Table = Table(columns: seq<string>, rows: seq<seq<Value>>)

  /** Every row has one cell per column (pd.read_csv never yields anything else). */
  predicate Rectangular(t: Table)
  {
    forall i :: 0 <= i < |t.rows| ==> |t.rows[i]| == |t.columns|
  }

  /** Position of the first column called x. */
  function IndexOf(s: seq<string>, x: string): (k: nat)
    requires x in s
    ensures k < |s| && s[k] == x && forall j :: 0 <= j < k ==> s[j] != x
  {
    if s[0] == x then 0 else 1 + IndexOf(s[1..], x)
  }

  lemma IndexOfAppend(s: seq<string>, y: string, x: string)
    requires x in s
    ensures x in s + [y] && IndexOf(s + [y], x) == IndexOf(s, x)
  {
    var k := IndexOf(s, x);
    var t := s + [y];
    assert t[k] == x && forall j :: 0 <= j < k ==> t[j] != x;
    IndexOfIs(t, x, k);
  }

  lemma IndexOfIs(s: seq<string>, x: string, k: nat)
    requires k < |s| && s[k] == x && forall j :: 0 <= j < k ==> s[j] != x
    ensures IndexOf(s, x) == k
  {
  }

  /** df[name]: the cells of the column called name, one per row. */
  function Column(t: Table, name: string): (col: seq<Value>)
    requires Rectangular(t) && name in t.columns
    ensures |col| == |t.rows|
  {
    var k := IndexOf(t.columns, name);
    seq(|t.rows|, i requires 0 <= i < |t.rows| => t.rows[i][k])
  }

  /**
   * df[name] = values: an existing column is overwritten where it stands,
   * a new one is appended; no other column changes.
   */
  function WithColumn(t: Table, name: string, values: seq<Value>): (r: Table)
    requires Rectangular(t) && |values| == |t.rows|
    ensures Rectangular(r) && |r.rows| == |t.rows|
    ensures r.columns == if name in t.columns then t.columns else t.columns + [name]
    ensures Column(r, name) == values
    ensures forall m :: m in t.columns && m != name ==> Column(r, m) == Column(t, m)
  {
    if name in t.columns then
      var k := IndexOf(t.columns, name);
      var r := Table(t.columns, seq(|t.rows|, i requires 0 <= i < |t.rows| => t.rows[i][k := values[i]]));
      assert Column(r, name) == values;
      r
    else
      var r := Table(t.columns + [name], seq(|t.rows|, i requires 0 <= i < |t.rows| => t.rows[i] + [values[i]]));
      IndexOfIs(r.columns, name, |t.columns|);
      assert Column(r, name) == values;
      forall m | m in t.columns && m != name
        ensures Column(r, m) == Column(t, m)
      {
        IndexOfAppend(t.columns, name, m);
      }
      r
  }

  /** [c.strip() for c in df.columns]. */
  function StripNames(cs: seq<string>): (r: seq<string>)
    ensures |r| == |cs|
    ensures forall i :: 0 <= i < |r| ==>
      |r[i]| <= |cs[i]| && (|r[i]| > 0 ==> !IsSpace(r[i][0]) && !IsSpace(r[i][|r[i]| - 1]))
  {
    seq(|cs|, i requires 0 <= i < |cs| => Strip(cs[i]))
  }

  /** Stripping the labels a second time changes none of them. */
  lemma StripNamesIdempotent(cs: seq<string>)
    ensures StripNames(StripNames(cs)) == StripNames(cs)
  {
    forall i | 0 <= i < |cs| ensures Strip(Strip(cs[i])) == Strip(cs[i]) {
      StripIdempotent(cs[i]);
    }
  }

  /** Series.astype(str) on one cell; a missing cell becomes the text "nan". */
  function AsString(v: Value): (s: string)
    ensures v.Missing? ==> s == "nan"
    ensures v.Str? ==> s == v.text
    ensures v.Num? ==> ParseInt(s) == Some(v.num)
  {
    match v
    case Missing => "nan"
    case Str(s) => s
    case Num(n) => ParseIntRoundTrip(n); IntToString(n)
  }

  /** A pandas DataFrame whose column labels and columns are reassigned in place. */
  class Frame {
    var columns: seq<string>
    var rows: seq<seq<Value>>

    ghost predicate Valid()
      reads this
    {
      Rectangular(Table(columns, rows))
    }

    function Snapshot(): Table
      reads this
    {
      Table(columns, rows)
    }

    constructor (t: Table)
      requires Rectangular(t)
      ensures Valid() && Snapshot() == t
    {
      columns := t.columns;
      rows := t.rows;
    }

    /** name in df.columns */
    function Has(name: string): bool
      reads this
    {
      name in columns
    }

    /** df[name] */
    function Get(name: string): (col: seq<Value>)
      reads this
      requires Valid() && name in columns
      ensures |col| == |rows|
    {
      Column(Snapshot(), name)
    }

    /** df.columns = [c.strip() for c in df.columns]: same rows, same number and order of columns. */
    method StripColumnNames()
      requires Valid()
      modifies this
      ensures Valid()
      ensures |columns| == |old(columns)| && rows == old(rows)
      ensures forall i :: 0 <= i < |columns| ==> columns[i] == Strip(old(columns)[i])
    {
      columns := StripNames(columns);
    }

    /** df[name] = values */
    method Set(name: string, values: seq<Value>)
      requires Valid() && |values| == |rows|
      modifies this
      ensures Valid() && Snapshot() == WithColumn(old(Snapshot()), name, values)
    {
      var r := WithColumn(Snapshot(), name, values);
      columns, rows := r.columns, r.rows;
    }
  }
}
