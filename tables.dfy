/**
 * Column totals of a summary sheet (`AutomationSimulator._sum_table`): the first row with
 * at least two non-empty cells names the columns; every later row of exactly the header's
 * width adds each of its numeric cells to the total of its column's name.
 */
module Tables {
  import opened Wrappers
  import opened Text
  import Numbers

  /** Totals by column name. */
  type Totals = map<string, real>

  /** `totals.get(name, 0.0)`. */
  function Get(t: Totals, name: string): real {
    if name in t then t[name] else 0.0
  }

  /** `totals[name] = totals.get(name, 0.0) + x`. */
  function Credit(t: Totals, name: string, x: real): Totals {
    t[name := Get(t, name) + x]
  }

  /** Crediting one column adds a key for it, adds `x` to its total and leaves every other total alone. */
  lemma CreditAt(t: Totals, name: string, x: real, other: string)
    ensures other in Credit(t, name, x) <==> other in t || other == name
    ensures Get(Credit(t, name, x), other) == Get(t, other) + (if other == name then x else 0.0)
  {
  }

  /** A header row: at least two cells hold text. */
  predicate IsTableHeader(row: seq<string>) {
    CountNonEmpty(row) >= 2
  }

  /** `normalize_number` applied to every cell of a row. */
  function ParseRow(row: seq<string>): (vals: seq<Option<real>>)
    ensures |vals| == |row|
  {
    if row == [] then [] else ParseRow(row[..|row| - 1]) + [Numbers.NormalizeNumber(row[|row| - 1])]
  }

  lemma ParseRowSnoc(row: seq<string>, k: nat)
    requires k < |row|
    ensures ParseRow(row[..k + 1]) == ParseRow(row[..k]) + [Numbers.NormalizeNumber(row[k])]
  {
    assert row[..k + 1][..k] == row[..k];
    assert row[..k + 1][k] == row[k];
  }

  /** Adds each numeric cell of a parsed row, left to right, to the total named by the header above it. */
  function AddCells(t: Totals, header: seq<string>, vals: seq<Option<real>>): Totals
    requires |header| == |vals|
  {
    if vals == [] then t
    else
      var n := |vals| - 1;
      var u := AddCells(t, header[..n], vals[..n]);
      match vals[n]
      case None => u
      case Some(x) => Credit(u, header[n], x)
  }

  /** Adds rows lo..hi-1 of the header's width, in order; rows of another width are skipped. */
  function AddRows(t: Totals, header: seq<string>, rows: Matrix, lo: nat, hi: nat): Totals
    requires lo <= hi <= |rows|
    decreases hi - lo
  {
    if hi == lo then t
    else
      var u := AddRows(t, header, rows, lo, hi - 1);
      if |rows[hi - 1]| == |header| then AddCells(u, header, ParseRow(rows[hi - 1])) else u
  }

  /** What `_sum_table` returns for a decoded sheet. */
  function TableTotals(rows: Matrix): Totals {
    match FirstWhere(rows, IsTableHeader)
    case None => map[]
    case Some(h) => AddRows(map[], rows[h], rows, h + 1, |rows|)
  }

  /** Some numeric cell of a parsed row lies under a column called `name`. */
  predicate HasCell(header: seq<string>, vals: seq<Option<real>>, name: string)
    requires |header| == |vals|
  {
    exists k :: 0 <= k < |vals| && header[k] == name && vals[k].Some?
  }

  /** The sum of the numeric cells of a parsed row under columns called `name`. */
  function CellSum(header: seq<string>, vals: seq<Option<real>>, name: string): real
    requires |header| == |vals|
  {
    if vals == [] then 0.0
    else
      var n := |vals| - 1;
      CellSum(header[..n], vals[..n], name) + (if header[n] == name && vals[n].Some? then vals[n].value else 0.0)
  }

  /** Some row among lo..hi-1 of the header's width has a numeric cell under a column called `name`. */
  predicate InColumn(header: seq<string>, rows: Matrix, lo: nat, hi: nat, name: string)
    requires lo <= hi <= |rows|
  {
    exists i :: lo <= i < hi && |rows[i]| == |header| && HasCell(header, ParseRow(rows[i]), name)
  }

  /** The sum of the numeric cells under columns called `name` over rows lo..hi-1 of the header's width. */
  function ColumnSum(header: seq<string>, rows: Matrix, lo: nat, hi: nat, name: string): real
    requires lo <= hi <= |rows|
    decreases hi - lo
  {
    if hi == lo then 0.0
    else
      ColumnSum(header, rows, lo, hi - 1, name) +
        (if |rows[hi - 1]| == |header| then CellSum(header, ParseRow(rows[hi - 1]), name) else 0.0)
  }

  lemma HasCellLast(header: seq<string>, vals: seq<Option<real>>, name: string)
    requires |header| == |vals| && vals != []
    ensures var n := |vals| - 1;
            HasCell(header, vals, name) <==> HasCell(header[..n], vals[..n], name) || (header[n] == name && vals[n].Some?)
  {
    var n := |vals| - 1;
    var h0, v0 := header[..n], vals[..n];
    if HasCell(header, vals, name) && !(header[n] == name && vals[n].Some?) {
      var k :| 0 <= k < |vals| && header[k] == name && vals[k].Some?;
      assert h0[k] == header[k] && v0[k] == vals[k];
    }
    if HasCell(h0, v0, name) {
      var k :| 0 <= k < n && h0[k] == name && v0[k].Some?;
      assert header[k] == h0[k] && vals[k] == v0[k];
    }
  }

  /** Adding a row's cells creates a key only for a column with a numeric cell and adds exactly that column's sum. */
  lemma {:induction false} AddCellsAt(t: Totals, header: seq<string>, vals: seq<Option<real>>, name: string)
    requires |header| == |vals|
    ensures name in AddCells(t, header, vals) <==> name in t || HasCell(header, vals, name)
    ensures Get(AddCells(t, header, vals), name) == Get(t, name) + CellSum(header, vals, name)
  {
    if vals != [] {
      var n := |vals| - 1;
      AddCellsAt(t, header[..n], vals[..n], name);
      HasCellLast(header, vals, name);
      if vals[n].Some? {
        CreditAt(AddCells(t, header[..n], vals[..n]), header[n], vals[n].value, name);
      }
    }
  }

  /** Over several rows: a key exists iff some row of the header's width has a numeric cell in that column, and holds the column's sum. */
  lemma {:induction false} AddRowsAt(t: Totals, header: seq<string>, rows: Matrix, lo: nat, hi: nat, name: string)
    requires lo <= hi <= |rows|
    ensures name in AddRows(t, header, rows, lo, hi) <==> name in t || InColumn(header, rows, lo, hi, name)
    ensures Get(AddRows(t, header, rows, lo, hi), name) == Get(t, name) + ColumnSum(header, rows, lo, hi, name)
    decreases hi - lo
  {
    if hi > lo {
      var n := hi - 1;
      AddRowsAt(t, header, rows, lo, n, name);
      if |rows[n]| == |header| {
        AddCellsAt(AddRows(t, header, rows, lo, n), header, ParseRow(rows[n]), name);
      }
      if InColumn(header, rows, lo, hi, name) && !InColumn(header, rows, lo, n, name) {
        var i :| lo <= i < hi && |rows[i]| == |header| && HasCell(header, ParseRow(rows[i]), name);
        assert i == n;
      }
    }
  }

  /**
   * The totals of a sheet: empty when no row has two non-empty cells; otherwise, for the
   * first such row `h`, a name is a key exactly when a later row of the same width has a
   * numeric cell under a column of that name, and its total is the sum of all such cells.
   */
  lemma TableTotalsAt(rows: Matrix, name: string)
    ensures FirstWhere(rows, IsTableHeader).None? ==> TableTotals(rows) == map[]
    ensures FirstWhere(rows, IsTableHeader).Some? ==>
              var h := FirstWhere(rows, IsTableHeader).value;
              (name in TableTotals(rows) <==> InColumn(rows[h], rows, h + 1, |rows|, name)) &&
              Get(TableTotals(rows), name) == ColumnSum(rows[h], rows, h + 1, |rows|, name)
  {
    if FirstWhere(rows, IsTableHeader).Some? {
      var h := FirstWhere(rows, IsTableHeader).value;
      AddRowsAt(map[], rows[h], rows, h + 1, |rows|, name);
    }
  }

  /** A row without a numeric cell under `name` adds nothing to that column. */
  lemma {:induction false} CellSumAbsent(header: seq<string>, vals: seq<Option<real>>, name: string)
    requires |header| == |vals| && !HasCell(header, vals, name)
    ensures CellSum(header, vals, name) == 0.0
  {
    if vals != [] {
      var n := |vals| - 1;
      HasCellLast(header, vals, name);
      CellSumAbsent(header[..n], vals[..n], name);
    }
  }

  /** A column none of whose cells parsed sums to 0.0, the same figure `get(name, 0.0)` reports for a missing key. */
  lemma {:induction false} ColumnSumAbsent(header: seq<string>, rows: Matrix, lo: nat, hi: nat, name: string)
    requires lo <= hi <= |rows| && !InColumn(header, rows, lo, hi, name)
    ensures ColumnSum(header, rows, lo, hi, name) == 0.0
    decreases hi - lo
  {
    if hi > lo {
      assert !InColumn(header, rows, lo, hi - 1, name);
      ColumnSumAbsent(header, rows, lo, hi - 1, name);
      if |rows[hi - 1]| == |header| {
        CellSumAbsent(header, ParseRow(rows[hi - 1]), name);
      }
    }
  }

  /** `totals.get(name, 0.0)` on a sheet's totals, stated without the fold: its column's sum under the first header row. */
  function ColumnTotal(rows: Matrix, name: string): real {
    match FirstWhere(rows, IsTableHeader)
    case None => 0.0
    case Some(h) => ColumnSum(rows[h], rows, h + 1, |rows|, name)
  }

  lemma ColumnTotalOf(rows: Matrix, name: string)
    ensures Get(TableTotals(rows), name) == ColumnTotal(rows, name)
  {
    TableTotalsAt(rows, name);
  }

  lemma AddCellsSnoc(t: Totals, header: seq<string>, vals: seq<Option<real>>, x: Option<real>)
    requires |header| == |vals| + 1
    ensures AddCells(t, header, vals + [x]) ==
              var u := AddCells(t, header[..|vals|], vals);
              if x.Some? then Credit(u, header[|vals|], x.value) else u
  {
    assert (vals + [x])[..|vals|] == vals;
  }

  /** The inner loop of `_sum_table`: each numeric cell of a row goes into its column's total. */
  method AddRowCells(start: Totals, header: seq<string>, row: seq<string>) returns (totals: Totals)
    requires |header| == |row|
    ensures totals == AddCells(start, header, ParseRow(row))
  {
    totals := start;
    for k := 0 to |row|
      invariant totals == AddCells(start, header[..k], ParseRow(row[..k]))
    {
      var number := Numbers.NormalizeNumber(row[k]);
      ghost var vals := ParseRow(row[..k]);
      ghost var u := AddCells(start, header[..k], vals);
      ParseRowSnoc(row, k);
      AddCellsSnoc(start, header[..k + 1], vals, number);
      assert header[..k + 1][..k] == header[..k] && header[..k + 1][k] == header[k];
      if number.Some? {
        totals := Credit(totals, header[k], number.value);
      }
    }
    assert header[..|row|] == header && row[..|row|] == row;
  }

  lemma FirstHeader(rows: Matrix, i: nat)
    requires i < |rows| && IsTableHeader(rows[i])
    requires forall k :: 0 <= k < i ==> !IsTableHeader(rows[k])
    ensures FirstWhere(rows, IsTableHeader) == Some(i)
  {
  }

  /** `_sum_table` over a decoded sheet: header search and column sums in one pass. */
  method SumTable(rows: Matrix) returns (totals: Totals)
    ensures totals == TableTotals(rows)
  {
    var header: seq<string> := [];
    ghost var h: nat := 0;
    totals := map[];
    for i := 0 to |rows|
      invariant header == [] ==> totals == map[] && forall k :: 0 <= k < i ==> !IsTableHeader(rows[k])
      invariant header != [] ==> h < i && FirstWhere(rows, IsTableHeader) == Some(h) && header == rows[h]
      invariant header != [] ==> totals == AddRows(map[], header, rows, h + 1, i)
    {
      var row := rows[i];
      if row == [] {
        continue;
      }
      if header != [] && |row| == |header| {
        totals := AddRowCells(totals, header, row);
      } else if header == [] {
        var texts := CountNonEmpty(row);
        if texts >= 2 {
          header := row;
          h := i;
          FirstHeader(rows, i);
        }
      }
    }
  }
}
