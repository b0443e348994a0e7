/**
 * The rows and columns of a parameter table: `create_markdown_table`
 * (scripts/generate_docs.py:148-172), up to the call that lays them out as
 * Markdown. Each row is one parameter's mapping as read from the YAML
 * documentation; the columns are every key that occurs, in the order
 * `sort_columns` gives them.
 */
module Table {
  import opened Builtins
  import opened Columns

  /** A value read from YAML, as far as the table looks at it. */
  datatype Value =
    | Null
    | Bool(b: bool)
    | Int(i: int)
    | Str(s: string)
      /** Any other value (a float, a list, a mapping), by its `str()` text. */
    | Other(text: string)

  /** One parameter's mapping: its keys, in insertion order, with their values. */
  type Row = seq<(string, Value)>

  /** `row.keys()`: a key for each entry, and only the keys the entries have. */
  function Keys(row: Row): (r: seq<string>)
    ensures |r| == |row|
    ensures forall k :: k in r <==> exists v :: (k, v) in row
  {
    var r := seq(|row|, i requires 0 <= i < |row| => row[i].0);
    assert forall k :: k in r <==> exists v :: (k, v) in row by {
      forall k ensures k in r <==> exists v :: (k, v) in row {
        if k in r {
          var i :| 0 <= i < |r| && r[i] == k;
          assert (k, row[i].1) in row;
        }
        if exists v :: (k, v) in row {
          var v :| (k, v) in row;
          var i :| 0 <= i < |row| && row[i] == (k, v);
          assert r[i] == k;
        }
      }
    }
    r
  }

  /** `row.get(key)`: the value of the first entry with that key, if any. */
  function Get(row: Row, key: string): (r: Option<Value>)
    ensures r.Some? <==> key in Keys(row)
    ensures r.Some? ==> (key, r.value) in row
  {
    if row == [] then None
    else if row[0].0 == key then Some(row[0].1)
    else
      var r := Get(row[1..], key);
      assert key in Keys(row) ==> key in Keys(row[1..]) by {
        if key in Keys(row) {
          var v :| (key, v) in row;
          assert (key, v) in row[1..];
        }
      }
      r
  }

  /** A string of decimal digits only. */
  predicate AllDigits(s: string) {
    forall i :: 0 <= i < |s| ==> '0' <= s[i] <= '9'
  }

  /** The number a string of decimal digits stands for, read left to right. */
  function DigitsValue(s: string): nat
    requires AllDigits(s)
  {
    if s == [] then 0 else DigitsValue(s[..|s| - 1]) * 10 + (s[|s| - 1] - '0') as int
  }

  /**
   * The decimal text of a natural number: digits only, standing for `n`, and
   * starting with `0` only when it is the text of zero.
   */
  function NatText(n: nat): (r: string)
    ensures |r| >= 1 && AllDigits(r)
    ensures DigitsValue(r) == n
    ensures r[0] == '0' <==> n == 0
    ensures |r| > 1 ==> r[0] != '0'
  {
    var d := ['0' + (n % 10) as char];
    if n < 10 then d
    else
      var t := NatText(n / 10);
      assert (t + d)[..|t + d| - 1] == t;
      t + d
  }

  /** Reading an integer back from its text: an optional `-` before decimal digits. */
  function ReadInt(s: string): Option<int> {
    if |s| >= 2 && s[0] == '-' && AllDigits(s[1..]) then Some(-(DigitsValue(s[1..]) as int))
    else if |s| >= 1 && AllDigits(s) then Some(DigitsValue(s))
    else None
  }

  /** `str(v)`; the text of an integer reads back as that integer. */
  function Text(v: Value): (r: string)
    ensures v.Int? ==> ReadInt(r) == Some(v.i)
  {
    match v
    case Null => "None"
    case Bool(b) => if b then "True" else "False"
    case Int(i) =>
      if i < 0 then
        var t := NatText(-i);
        assert ("-" + t)[1..] == t;
        "-" + t
      else NatText(i)
    case Str(s) => s
    case Other(text) => text
  }

  /**
   * `v == True`: in Python the boolean `True` and the integer `1` are equal,
   * so only a value written `True` or `1` qualifies.
   */
  predicate EqualsTrue(v: Value)
    ensures EqualsTrue(v) ==> Text(v) == "True" || Text(v) == "1"
  {
    v == Bool(true) || v == Int(1)
  }

  /**
   * The cell of column `col` in `row`: empty when the row lacks the key or
   * holds `None` there, and in the `required` column one of the empty cell,
   * `Required` and `Optional`.
   */
  function Cell(row: Row, col: string): (r: Value)
    ensures Get(row, col) == None || Get(row, col) == Some(Null) ==> r == Str("")
    ensures col == "required" ==> r == Str("") || r == Str("Required") || r == Str("Optional")
  {
    match Get(row, col)
    case None => Str("")
    case Some(v) =>
      if v.Null? then Str("")
      else if col == "default" then Str("`" + Text(v) + "`")
      else if col == "required" then Str(if EqualsTrue(v) then "Required" else "Optional")
      else v
  }

  /** One table row: a cell for each column. */
  function Cells(row: Row, cols: seq<string>): (r: seq<Value>)
    ensures |r| == |cols|
  {
    seq(|cols|, c requires 0 <= c < |cols| => Cell(row, cols[c]))
  }

  // ---------------------------------------------------------------------------
  // Collecting the columns
  // ---------------------------------------------------------------------------

  /**
   * Each key of `keys` in turn appended to `cols` unless it is already there:
   * `cols` stays in front, and a name is in the result exactly when it is in
   * `cols` or in `keys`.
   */
  function AddNew(cols: seq<string>, keys: seq<string>): (r: seq<string>)
    ensures |r| >= |cols| && r[..|cols|] == cols
    ensures forall x :: x in r <==> x in cols || x in keys
    decreases |keys|
  {
    if keys == [] then cols
    else
      var init := AddNew(cols, keys[..|keys| - 1]);
      var k := keys[|keys| - 1];
      assert keys == keys[..|keys| - 1] + [k];
      if k in init then init else init + [k]
  }

  /** All keys of all rows, row after row: exactly the keys some row has. */
  function AllKeys(values: seq<Row>): (r: seq<string>)
    ensures forall x :: x in r <==> exists i :: 0 <= i < |values| && x in Keys(values[i])
  {
    if values == [] then []
    else
      var init := values[..|values| - 1];
      assert forall i :: 0 <= i < |init| ==> init[i] == values[i];
      AllKeys(init) + Keys(values[|values| - 1])
  }

  /** The keys of all rows, each once, in the order they first appear. */
  function ColumnsOf(values: seq<Row>): (r: seq<string>)
    ensures NoDup(r)
    ensures forall x :: x in r <==> x in AllKeys(values)
  {
    AddNewNoDup([], AllKeys(values));
    AddNew([], AllKeys(values))
  }

  /**
   * The header of the table, the distinct keys in `sort_columns` order: it
   * lists every key that some row has, each exactly once, and nothing else.
   */
  function Header(values: seq<Row>): (r: seq<string>)
    ensures NoDup(r)
    ensures forall x :: x in r <==> exists i :: 0 <= i < |values| && x in Keys(values[i])
  {
    var cols := ColumnsOf(values);
    ColumnOrderNoDup(cols);
    var r := ColumnOrder(cols);
    assert forall x :: x in r <==> x in cols by {
      forall x ensures x in r <==> x in cols {
        assert x in r <==> x in multiset(r);
        assert x in cols <==> x in multiset(cols);
      }
    }
    r
  }

  // ---------------------------------------------------------------------------
  // The imperative version
  // ---------------------------------------------------------------------------

  /** The inner loop over one row's keys. */
  method AddKeys(cols: seq<string>, keys: seq<string>) returns (columns: seq<string>)
    ensures columns == AddNew(cols, keys)
  {
    columns := cols;
    for j := 0 to |keys|
      invariant columns == AddNew(cols, keys[..j])
    {
      assert keys[..j + 1][..j] == keys[..j];
      if keys[j] !in columns {
        columns := columns + [keys[j]];
      }
    }
    assert keys[..|keys|] == keys;
  }

  /** The first loop of `create_markdown_table`: the distinct keys of all rows. */
  method CollectColumns(values: seq<Row>) returns (columns: seq<string>)
    ensures columns == ColumnsOf(values)
  {
    columns := [];
    for r := 0 to |values|
      invariant columns == ColumnsOf(values[..r])
    {
      assert values[..r + 1][..r] == values[..r];
      AddNewAppend([], AllKeys(values[..r]), Keys(values[r]));
      columns := AddKeys(columns, Keys(values[r]));
    }
    assert values[..|values|] == values;
  }

  /** The inner loop of the last part: the cells of one row. */
  method RowCells(row: Row, columns: seq<string>) returns (d: seq<Value>)
    ensures d == Cells(row, columns)
  {
    d := [];
    for c := 0 to |columns|
      invariant d == Cells(row, columns[..c])
    {
      d := d + [Cell(row, columns[c])];
    }
    assert columns[..|columns|] == columns;
  }

  /**
   * `create_markdown_table(values)` before the layout: the header columns and
   * the rows of cells.
   */
  method CreateMarkdownTable(values: seq<Row>) returns (columns: seq<string>, rows: seq<seq<Value>>)
    ensures columns == Header(values)
    ensures |rows| == |values|
    ensures forall r :: 0 <= r < |rows| ==> rows[r] == Cells(values[r], columns)
  {
    columns := CollectColumns(values);
    var l := new ColumnList(columns);
    columns := SortColumns(l);
    rows := AllRows(values, columns);
  }

  /** The last loop of `create_markdown_table`: a row of cells for each mapping. */
  method AllRows(values: seq<Row>, columns: seq<string>) returns (rows: seq<seq<Value>>)
    ensures |rows| == |values|
    ensures forall r :: 0 <= r < |rows| ==> rows[r] == Cells(values[r], columns)
  {
    rows := [];
    for r := 0 to |values|
      invariant |rows| == r
      invariant forall i :: 0 <= i < r ==> rows[i] == Cells(values[i], columns)
    {
      var d := RowCells(values[r], columns);
      rows := rows + [d];
    }
  }

  // ---------------------------------------------------------------------------
  // What the columns are
  // ---------------------------------------------------------------------------

  /** Adding the keys of two lists one after the other is adding the keys of both. */
  lemma {:induction false} AddNewAppend(cols: seq<string>, a: seq<string>, b: seq<string>)
    ensures AddNew(AddNew(cols, a), b) == AddNew(cols, a + b)
    decreases |b|
  {
    if b != [] {
      var init := b[..|b| - 1];
      assert (a + b)[..|a + b| - 1] == a + init;
      assert (a + b)[|a + b| - 1] == b[|b| - 1];
      AddNewAppend(cols, a, init);
    } else {
      assert a + b == a;
    }
  }

  /** Collecting the keys never repeats one. */
  lemma {:induction false} AddNewNoDup(cols: seq<string>, keys: seq<string>)
    requires NoDup(cols)
    ensures NoDup(AddNew(cols, keys))
    decreases |keys|
  {
    if keys != [] {
      AddNewNoDup(cols, keys[..|keys| - 1]);
    }
  }

  /** ... and keeps them in the order of their first occurrence. */
  lemma {:induction false} AddNewOrder(keys: seq<string>)
    ensures forall i, j :: 0 <= i < j < |AddNew([], keys)| ==>
      && AddNew([], keys)[i] in keys && AddNew([], keys)[j] in keys
      && IndexOf(keys, AddNew([], keys)[i]) < IndexOf(keys, AddNew([], keys)[j])
    decreases |keys|
  {
    if keys != [] {
      var d := AddNew([], keys);
      var init := keys[..|keys| - 1];
      var k := keys[|keys| - 1];
      var d0 := AddNew([], init);
      AddNewOrder(init);
      
      assert keys == init + [k];
      forall i, j | 0 <= i < j < |d| ensures d[i] in keys && d[j] in keys && IndexOf(keys, d[i]) < IndexOf(keys, d[j]) {
        assert d[i] == d0[i] && d0[i] in init;
        IndexOfAppend(init, k, d0[i]);
        if j < |d0| {
          assert d[j] == d0[j] && d0[j] in init;
          IndexOfAppend(init, k, d0[j]);
        } else {
          assert d[j] == k && k !in init;
          assert keys[..|init|] == init;
          assert IndexOf(keys, k) == |init|;
        }
      }
    } else {
      assert AddNew([], keys) == [];
    }
  }

  /** The first position of `x` in a list does not move when something is appended. */
  lemma {:induction false} IndexOfAppend(s: seq<string>, y: string, x: string)
    requires x in s
    ensures IndexOf(s + [y], x) == IndexOf(s, x)
  {
    var t := s + [y];
    var m := IndexOf(s, x);
    assert t[..m] == s[..m];
    IndexOfIs(t, x, m);
  }

  /** Before sorting, the columns are the distinct keys in the order they first occur, row after row. */
  lemma {:induction false} ColumnsInFirstOrder(values: seq<Row>)
    ensures var cols, keys := ColumnsOf(values), AllKeys(values);
      && NoDup(cols)
      && (forall x :: x in cols <==> x in keys)
      && forall i, j :: 0 <= i < j < |cols| ==> IndexOf(keys, cols[i]) < IndexOf(keys, cols[j])
  {
    AddNewOrder(AllKeys(values));
  }

  // ---------------------------------------------------------------------------
  // What the cells are
  // ---------------------------------------------------------------------------

  /** A `default` value is shown as inline code; an integer default reads back from it. */
  lemma {:induction false} DefaultCell(row: Row, v: Value)
    requires Get(row, "default") == Some(v) && v != Null
    ensures var c := Cell(row, "default");
      c.Str? && |c.s| >= 2 && c.s[0] == '`' && c.s[|c.s| - 1] == '`' && c.s[1..|c.s| - 1] == Text(v)
    ensures var c := Cell(row, "default");
      v.Int? ==> ReadInt(c.s[1..|c.s| - 1]) == Some(v.i)
  {
    var c := Cell(row, "default");
    assert c.s[1..|c.s| - 1] == Text(v);
  }

  /** The `required` column says `Required` exactly for a value equal to `True`, `Optional` for any other value. */
  lemma {:induction false} RequiredCell(row: Row)
    ensures Cell(row, "required") == Str("Required") <==> exists v :: Get(row, "required") == Some(v) && EqualsTrue(v)
    ensures Cell(row, "required") in {Str(""), Str("Required"), Str("Optional")}
    ensures Cell(row, "required") == Str("") <==> Get(row, "required") in {None, Some(Null)}
  {
  }

  /** Any other column shows the value itself. */
  lemma {:induction false} PlainCell(row: Row, col: string, v: Value)
    requires col != "default" && col != "required"
    requires Get(row, col) == Some(v) && v != Null
    ensures Cell(row, col) == v
  {
  }
}
