/** The row conversion of `import_excel_data`: each spreadsheet row becomes
    one payload with a 1-based `S.No`. Reading the workbook is outside the
    model; its rows arrive as a sequence of (column label, cell) pairs in
    the sheet's column order. */
module Spreadsheet {
  import opened Values

  /** A cell as the reader hands it over. `NaN` is a floating-point NaN: it
      is both missing and numeric. `Boolean` is a Python `bool`, which is an
      `int` to `isinstance`. `Other` carries `str(value)`. */
  datatype Cell = Missing | NaN | Number(n: int) | Boolean(b: bool) | Other(repr: string)

  /** `pd.isna(value)` */
  predicate IsNa(c: Cell) {
    c.Missing? || c.NaN?
  }

  /** `isinstance(value, (int, float))` */
  predicate IsNumeric(c: Cell) {
    c.Number? || c.Boolean? || c.NaN?
  }

  /** The three-way conversion, checked in the source's order: missing first,
      then numeric, then text. */
  function ConvertCell(c: Cell): (v: Value)
    ensures v == Null <==> IsNa(c)
    ensures v.Num? || v.Bool? <==> IsNumeric(c) && !IsNa(c)
    ensures v.Num? ==> c == Number(v.n)
    ensures v.Bool? ==> c == Boolean(v.b)
    ensures v.Str? <==> !IsNumeric(c) && !IsNa(c)
    ensures v.Str? ==> c == Other(v.s)
  {
    if IsNa(c) then Null
    else if IsNumeric(c) then
      match c
      case Number(n) => Num(n)
      case Boolean(b) => Bool(b)
    else Str(c.repr)
  }

  /** A boolean cell is kept as a JSON boolean, not turned into text. */
  lemma BooleanKept(b: bool)
    ensures IsNumeric(Boolean(b)) && ConvertCell(Boolean(b)) == Bool(b)
  {
  }

  /** A NaN, numeric though it is, is stored as null, never as a number. */
  lemma NaNIsNull()
    ensures IsNumeric(NaN) && ConvertCell(NaN) == Null
  {
  }

  type Row = seq<(string, Cell)>

  function Labels(row: Row): set<string> {
    set i | 0 <= i < |row| :: row[i].0
  }

  /** The last cell of `row` under label `k`, the one whose write survives. */
  function LastCell(row: Row, k: string): Option<Cell> {
    if row == [] then None
    else if row[|row| - 1].0 == k then Some(row[|row| - 1].1)
    else LastCell(row[..|row| - 1], k)
  }

  /** `LastCell` finds the cell at the last position carrying label `k`. */
  lemma {:induction false} LastCellMeaning(row: Row, k: string, i: nat)
    requires i < |row| && row[i].0 == k
    requires forall j :: i < j < |row| ==> row[j].0 != k
    ensures LastCell(row, k) == Some(row[i].1)
  {
    if i < |row| - 1 {
      var init := row[..|row| - 1];
      LastCellMeaning(init, k, i);
    }
  }

  lemma {:induction false} LastCellFound(row: Row, k: string)
    ensures LastCell(row, k).Some? <==> k in Labels(row)
  {
    if row != [] {
      var init := row[..|row| - 1];
      LastCellFound(init, k);
      assert Labels(row) == Labels(init) + {row[|row| - 1].0} by {
        forall x | x in Labels(row) ensures x in Labels(init) + {row[|row| - 1].0} {
          var i :| 0 <= i < |row| && row[i].0 == x;
          if i < |init| { assert init[i] == row[i]; }
        }
        forall x | x in Labels(init) ensures x in Labels(row) {
          var i :| 0 <= i < |init| && init[i].0 == x;
          assert row[i] == init[i];
        }
      }
    }
  }

  /** `data[col] = convert(value)` for every cell, in order. */
  function WriteCells(data: map<string, Value>, row: Row): (r: map<string, Value>)
    ensures forall k :: k in Labels(row) ==> LastCell(row, k).Some? && k in r && r[k] == ConvertCell(LastCell(row, k).value)
    ensures forall k :: k in data && k !in Labels(row) ==> k in r && r[k] == data[k]
    ensures forall k :: k in r ==> k in data || k in Labels(row)
  {
    if row == [] then data
    else
      var init := row[..|row| - 1];
      var prev := WriteCells(data, init);
      LastCellFound(row, row[|row| - 1].0);
      assert forall k :: k in Labels(row) && k != row[|row| - 1].0 ==> k in Labels(init) by {
        forall k | k in Labels(row) && k != row[|row| - 1].0 ensures k in Labels(init) {
          var i :| 0 <= i < |row| && row[i].0 == k;
          assert init[i] == row[i];
        }
      }
      assert forall k :: k in Labels(init) ==> k in Labels(row) by {
        forall k | k in Labels(init) ensures k in Labels(row) {
          var i :| 0 <= i < |init| && init[i].0 == k;
          assert row[i] == init[i];
        }
      }
      prev[row[|row| - 1].0 := ConvertCell(row[|row| - 1].1)]
  }

  /** Writing one more cell of the row extends the writes so far. */
  lemma WriteCellsStep(data: map<string, Value>, row: Row, j: nat)
    requires j < |row|
    ensures WriteCells(data, row[..j + 1]) == WriteCells(data, row[..j])[row[j].0 := ConvertCell(row[j].1)]
  {
    assert row[..j + 1][..j] == row[..j];
  }

  /** One payload: `S.No` first, then every cell of the row. */
  function NormalizeRow(index: nat, row: Row): (r: map<string, Value>)
    ensures r.Keys == {"S.No"} + Labels(row)
    ensures "S.No" !in Labels(row) ==> r["S.No"] == Num(index + 1)
    ensures forall k :: k in Labels(row) ==> LastCell(row, k).Some? && r[k] == ConvertCell(LastCell(row, k).value)
  {
    assert forall k :: k in Labels(row) ==> LastCell(row, k).Some? by {
      forall k | k in Labels(row) ensures LastCell(row, k).Some? { LastCellFound(row, k); }
    }
    WriteCells(map["S.No" := Num(index + 1)], row)
  }

  /** With distinct column labels, as a sheet header gives, every cell is kept
      under its own label. */
  lemma DistinctLabelsKeepEveryCell(index: nat, row: Row, i: nat)
    requires i < |row|
    requires forall a, b :: 0 <= a < b < |row| ==> row[a].0 != row[b].0
    ensures NormalizeRow(index, row)[row[i].0] == ConvertCell(row[i].1)
  {
    assert row[i].0 in Labels(row);
    LastCellMeaning(row, row[i].0, i);
  }

  /** The per-row loop of `import_excel_data`: one payload per row in row
      order, row `i` numbered `i + 1`, and the count of rows converted. */
  method NormalizeRows(rows: seq<Row>) returns (payloads: seq<map<string, Value>>, count: nat)
    ensures count == |rows| && |payloads| == |rows|
    ensures forall i :: 0 <= i < |rows| ==> payloads[i] == NormalizeRow(i, rows[i])
  {
    payloads := [];
    count := 0;
    var index := 0;
    while index < |rows|
      invariant index <= |rows|
      invariant count == index && |payloads| == index
      invariant forall i :: 0 <= i < index ==> payloads[i] == NormalizeRow(i, rows[i])
    {
      var row := rows[index];
      var data := map["S.No" := Num(index + 1)];
      var j := 0;
      while j < |row|
        invariant j <= |row|
        invariant data == WriteCells(map["S.No" := Num(index + 1)], row[..j])
      {
        WriteCellsStep(map["S.No" := Num(index + 1)], row, j);
        data := data[row[j].0 := ConvertCell(row[j].1)];
        j := j + 1;
      }
      assert row[..j] == row;
      payloads := payloads + [data];
      count := count + 1;
      index := index + 1;
    }
  }

  /** Two rows, `Name`/`Age`, the second with its age missing. */
  lemma ImportExample()
    ensures NormalizeRow(0, [("Name", Other("Alice")), ("Age", Number(30))])
            == map["S.No" := Num(1), "Name" := Str("Alice"), "Age" := Num(30)]
    ensures NormalizeRow(1, [("Name", Other("Bob")), ("Age", Missing)])
            == map["S.No" := Num(2), "Name" := Str("Bob"), "Age" := Null]
  {
    TwoCellRow(0, "Alice", Number(30));
    TwoCellRow(1, "Bob", Missing);
  }

  lemma TwoCellRow(index: nat, name: string, age: Cell)
    ensures NormalizeRow(index, [("Name", Other(name)), ("Age", age)])
            == map["S.No" := Num(index + 1), "Name" := Str(name), "Age" := ConvertCell(age)]
  {
    var row: Row := [("Name", Other(name)), ("Age", age)];
    assert Labels(row) == {"Name", "Age"} by {
      assert row[0].0 == "Name" && row[1].0 == "Age";
    }
    LastCellMeaning(row, "Name", 0);
    LastCellMeaning(row, "Age", 1);
  }
}
