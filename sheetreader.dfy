/**
 * The spreadsheet reader (`Workbook`): the sheet directory joined from the workbook part
 * and its relationships, and the decoding of one worksheet into a dense text matrix.
 * The archive and the XML are not modelled: a worksheet arrives as its `row` elements,
 * each a sequence of `c` elements already reduced to their `r` and `t` attributes and the
 * text of their `v` child. Shared strings follow ECMA-376 Part 1, section 18.4.
 */
module SheetReader {
  import opened Wrappers
  import opened Text
  import CellRef
  import Numbers

  /** A `c` element: `r` and `t` attributes and the text of `v` (Some("") for an empty `v`). */
  datatype Cell = Cell(ref: Option<string>, kind: Option<string>, value: Option<string>)

  type XmlRow = seq<Cell>

  /** The exceptions the reader lets escape. */
  datatype Error =
    | UnknownSheet(name: string)
    | MissingPart(path: string)
    | UnknownRelationship(relId: string)
    | BadSharedStringIndex(text: string)

  /** An opened workbook: shared strings, sheet directory, and the worksheet parts by path. */
  datatype Workbook = Workbook(
    sharedStrings: seq<string>,
    sheets: map<string, string>,
    parts: map<string, seq<XmlRow>>)

  // ------------------------------------------------------------------ sheet directory

  /** `{rel.attrib["Id"]: rel.attrib["Target"] for rel in rel_root}`: a later Id wins. */
  function RelationshipMap(rels: seq<(string, string)>): (m: map<string, string>)
    ensures forall id :: id in m <==> exists i :: 0 <= i < |rels| && rels[i].0 == id
  {
    if rels == [] then map[]
    else
      var m := RelationshipMap(rels[..|rels| - 1]);
      assert forall i :: 0 <= i < |rels| - 1 ==> rels[..|rels| - 1][i] == rels[i];
      m[rels[|rels| - 1].0 := rels[|rels| - 1].1]
  }

  /** The sheet loop of `_load_sheet_map`: each (name, relId) goes through the relationship map. */
  function SheetDirectory(entries: seq<(string, string)>, rels: map<string, string>): Result<map<string, string>, Error>
  {
    if entries == [] then Ok(map[])
    else
      match SheetDirectory(entries[..|entries| - 1], rels)
      case Err(e) => Err(e)
      case Ok(m) =>
        var (name, relId) := entries[|entries| - 1];
        if relId in rels then Ok(m[name := rels[relId]]) else Err(UnknownRelationship(relId))
  }

  /** `_load_sheet_map` as a whole. */
  function LoadSheetMap(entries: seq<(string, string)>, rels: seq<(string, string)>): Result<map<string, string>, Error> {
    SheetDirectory(entries, RelationshipMap(rels))
  }

  /** The last relationship carrying an Id decides that Id's target. */
  lemma {:induction false} RelationshipLastWins(rels: seq<(string, string)>, i: nat)
    requires i < |rels|
    requires forall j :: i < j < |rels| ==> rels[j].0 != rels[i].0
    ensures rels[i].0 in RelationshipMap(rels) && RelationshipMap(rels)[rels[i].0] == rels[i].1
  {
    var init := rels[..|rels| - 1];
    if i < |init| {
      assert forall j :: 0 <= j < |init| ==> init[j] == rels[j];
      RelationshipLastWins(init, i);
    }
  }

  /** The directory is built exactly when every sheet's relationship Id is known. */
  lemma {:induction false} SheetDirectoryOk(entries: seq<(string, string)>, rels: map<string, string>)
    ensures SheetDirectory(entries, rels).Ok? <==> forall i :: 0 <= i < |entries| ==> entries[i].1 in rels
  {
    if entries != [] {
      var init := entries[..|entries| - 1];
      assert forall i :: 0 <= i < |init| ==> init[i] == entries[i];
      SheetDirectoryOk(init, rels);
    }
  }

  /** A failed directory reports the first sheet whose relationship Id is unknown. */
  lemma {:induction false} SheetDirectoryFirstError(entries: seq<(string, string)>, rels: map<string, string>)
    requires SheetDirectory(entries, rels).Err?
    ensures exists k :: 0 <= k < |entries| && entries[k].1 !in rels &&
                        SheetDirectory(entries, rels).error == UnknownRelationship(entries[k].1) &&
                        forall j :: 0 <= j < k ==> entries[j].1 in rels
  {
    var init := entries[..|entries| - 1];
    assert forall i :: 0 <= i < |init| ==> init[i] == entries[i];
    if SheetDirectory(init, rels).Err? {
      SheetDirectoryFirstError(init, rels);
    } else {
      SheetDirectoryOk(init, rels);
    }
  }

  /** The directory's names are exactly the workbook's sheet names. */
  lemma {:induction false} SheetDirectoryNames(entries: seq<(string, string)>, rels: map<string, string>, name: string)
    requires SheetDirectory(entries, rels).Ok?
    ensures name in SheetDirectory(entries, rels).value <==> exists i :: 0 <= i < |entries| && entries[i].0 == name
  {
    if entries != [] {
      var init := entries[..|entries| - 1];
      assert forall i :: 0 <= i < |init| ==> init[i] == entries[i];
      SheetDirectoryNames(init, rels, name);
    }
  }

  /** A sheet name maps to the target of its relationship Id (the last entry for a repeated name). */
  lemma {:induction false} SheetDirectoryAt(entries: seq<(string, string)>, rels: map<string, string>, i: nat)
    requires SheetDirectory(entries, rels).Ok? && i < |entries|
    requires forall j :: i < j < |entries| ==> entries[j].0 != entries[i].0
    ensures entries[i].1 in rels && entries[i].0 in SheetDirectory(entries, rels).value
    ensures SheetDirectory(entries, rels).value[entries[i].0] == rels[entries[i].1]
  {
    var init := entries[..|entries| - 1];
    if i < |init| {
      assert forall j :: 0 <= j < |init| ==> init[j] == entries[j];
      SheetDirectoryAt(init, rels, i);
    }
  }

  /** `_load_sheet_map`: build the relationship dictionary, then route each sheet through it in document order. */
  method ReadSheetMap(entries: seq<(string, string)>, rels: seq<(string, string)>)
    returns (r: Result<map<string, string>, Error>)
    ensures r == LoadSheetMap(entries, rels)
  {
    var targets := RelationshipMap(rels);
    var sheets: map<string, string> := map[];
    for i := 0 to |entries|
      invariant SheetDirectory(entries[..i], targets) == Ok(sheets)
    {
      assert entries[..i + 1][..i] == entries[..i];
      var (name, relId) := entries[i];
      if relId !in targets {
        SheetDirectoryErrPrefix(entries, targets, i + 1);
        return Err(UnknownRelationship(relId));
      }
      sheets := sheets[name := targets[relId]];
    }
    assert entries[..|entries|] == entries;
    return Ok(sheets);
  }

  /** Once a prefix of the sheets fails, the whole directory fails with the same error. */
  lemma {:induction false} SheetDirectoryErrPrefix(entries: seq<(string, string)>, rels: map<string, string>, k: nat)
    requires k <= |entries| && SheetDirectory(entries[..k], rels).Err?
    ensures SheetDirectory(entries, rels) == SheetDirectory(entries[..k], rels)
    decreases |entries|
  {
    if k < |entries| {
      var init := entries[..|entries| - 1];
      assert init[..k] == entries[..k];
      SheetDirectoryErrPrefix(init, rels, k);
    } else {
      assert entries[..k] == entries;
    }
  }

  /** `Workbook.__init__` once the archive parts are parsed. */
  function OpenWorkbook(
    sharedStrings: seq<string>, entries: seq<(string, string)>, rels: seq<(string, string)>,
    parts: map<string, seq<XmlRow>>): (r: Result<Workbook, Error>)
    ensures r.Ok? <==> forall i :: 0 <= i < |entries| ==> entries[i].1 in RelationshipMap(rels)
    ensures r.Ok? ==> r.value.sharedStrings == sharedStrings && r.value.parts == parts &&
                      forall n :: n in r.value.sheets <==> exists i :: 0 <= i < |entries| && entries[i].0 == n
    ensures r.Ok? ==> forall i :: 0 <= i < |entries| && (forall j :: i < j < |entries| ==> entries[j].0 != entries[i].0) ==>
                        entries[i].0 in r.value.sheets && r.value.sheets[entries[i].0] == RelationshipMap(rels)[entries[i].1]
    ensures r.Err? ==> exists k :: 0 <= k < |entries| && entries[k].1 !in RelationshipMap(rels) &&
                                   r.error == UnknownRelationship(entries[k].1) &&
                                   forall j :: 0 <= j < k ==> entries[j].1 in RelationshipMap(rels)
  {
    SheetDirectoryOk(entries, RelationshipMap(rels));
    if LoadSheetMap(entries, rels).Err? then
      SheetDirectoryFirstError(entries, RelationshipMap(rels));
      Err(LoadSheetMap(entries, rels).error)
    else
      var sheets := LoadSheetMap(entries, rels).value;
      assert forall n :: n in sheets <==> exists i :: 0 <= i < |entries| && entries[i].0 == n by {
        forall n {
          SheetDirectoryNames(entries, RelationshipMap(rels), n);
        }
      }
      forall i | 0 <= i < |entries| && (forall j :: i < j < |entries| ==> entries[j].0 != entries[i].0)
        ensures entries[i].0 in sheets && sheets[entries[i].0] == RelationshipMap(rels)[entries[i].1]
      {
        SheetDirectoryAt(entries, RelationshipMap(rels), i);
      }
      Ok(Workbook(sharedStrings, sheets, parts))
  }

  // ------------------------------------------------------------------ cell values

  /** Zero-based column of a cell; a missing `r` attribute reads as "". */
  function CellColumn(c: Cell): nat {
    CellRef.ColumnIndex(c.ref.GetOr(""))
  }

  /** `shared_strings[int(text)]`, with Python's negative indexing and its errors. */
  function SharedString(ss: seq<string>, text: string): (r: Result<string, Error>)
    ensures r.Ok? ==> r.value in ss
    ensures r.Err? ==> r.error == BadSharedStringIndex(text)
    ensures var i := Numbers.ParseInt(text);
            i.Some? && -|ss| <= i.value < |ss| ==> r == Ok(ss[if i.value < 0 then i.value + |ss| else i.value])
    ensures var i := Numbers.ParseInt(text);
            r.Err? <==> i.None? || !(-|ss| <= i.value < |ss|)
  {
    match Numbers.ParseInt(text)
    case None => Err(BadSharedStringIndex(text))
    case Some(i) =>
      if -|ss| <= i < |ss| then Ok(ss[if i < 0 then i + |ss| else i])
      else Err(BadSharedStringIndex(text))
  }

  /** The value a cell contributes: "" without `v`, a shared string when `t="s"`, else the raw text. */
  function CellValue(ss: seq<string>, c: Cell): (r: Result<string, Error>)
    ensures c.value.None? ==> r == Ok("")
    ensures c.value.Some? && c.kind != Some("s") ==> r == Ok(c.value.value)
    ensures c.value.Some? && c.kind == Some("s") ==> r == SharedString(ss, c.value.value)
    ensures r.Ok? && c.kind == Some("s") && c.value.Some? ==> r.value in ss
  {
    match c.value
    case None => Ok("")
    case Some(text) => if c.kind == Some("s") then SharedString(ss, text) else Ok(text)
  }

  /** Each cell of a row resolved to (column, value), or the first cell's error. */
  function ResolveRow(ss: seq<string>, cells: XmlRow): (r: Result<seq<(nat, string)>, Error>)
    ensures r.Ok? ==> |r.value| == |cells|
  {
    if cells == [] then Ok([])
    else
      var init := cells[..|cells| - 1];
      var last := cells[|cells| - 1];
      match ResolveRow(ss, init)
      case Err(e) => Err(e)
      case Ok(placed) =>
        match CellValue(ss, last)
        case Err(e) => Err(e)
        case Ok(v) => Ok(placed + [(CellColumn(last), v)])
  }

  // ------------------------------------------------------------------ row layout

  function Blanks(n: nat): (r: seq<string>)
    ensures |r| == n && forall k :: 0 <= k < n ==> r[k] == ""
  {
    if n == 0 then [] else Blanks(n - 1) + [""]
  }

  /** Pad `row` with "" up to index `col`, then append `value`. */
  function Place(row: seq<string>, col: nat, value: string): (r: seq<string>)
    ensures |r| == (if col > |row| then col else |row|) + 1
    ensures r[..|row|] == row && r[|r| - 1] == value
    ensures forall k :: |row| <= k < |r| - 1 ==> r[k] == ""
  {
    row + Blanks(if col > |row| then col - |row| else 0) + [value]
  }

  /** The row built from resolved cells in document order. */
  function Layout(placed: seq<(nat, string)>): (r: seq<string>)
    ensures |r| >= |placed|
  {
    if placed == [] then []
    else Place(Layout(placed[..|placed| - 1]), placed[|placed| - 1].0, placed[|placed| - 1].1)
  }

  /** The whole matrix of a worksheet: one decoded row per `row` element, or the first error. */
  function DecodeRows(ss: seq<string>, rows: seq<XmlRow>): (r: Result<Matrix, Error>)
    ensures r.Ok? ==> |r.value| == |rows|
  {
    if rows == [] then Ok([])
    else
      var init := rows[..|rows| - 1];
      match DecodeRows(ss, init)
      case Err(e) => Err(e)
      case Ok(m) =>
        match ResolveRow(ss, rows[|rows| - 1])
        case Err(e) => Err(e)
        case Ok(placed) => Ok(m + [Layout(placed)])
  }

  /** `read_sheet(name)`: the directory lookup, the part lookup, then the decoding. */
  function SheetMatrix(wb: Workbook, name: string): Result<Matrix, Error> {
    if name !in wb.sheets then Err(UnknownSheet(name))
    else
      var path := "xl/" + wb.sheets[name];
      if path !in wb.parts then Err(MissingPart(path))
      else DecodeRows(wb.sharedStrings, wb.parts[path])
  }

  /** A row resolves exactly when each of its cells does. */
  lemma {:induction false} ResolveRowOk(ss: seq<string>, cells: XmlRow)
    ensures ResolveRow(ss, cells).Ok? <==> forall k :: 0 <= k < |cells| ==> CellValue(ss, cells[k]).Ok?
  {
    if cells != [] {
      var init := cells[..|cells| - 1];
      ResolveRowOk(ss, init);
      assert forall k :: 0 <= k < |init| ==> init[k] == cells[k];
    }
  }

  /** Cell `k` of a resolved row carries its decoded column and its resolved value. */
  lemma {:induction false} ResolveRowAt(ss: seq<string>, cells: XmlRow, k: nat)
    requires ResolveRow(ss, cells).Ok? && k < |cells|
    ensures CellValue(ss, cells[k]).Ok?
    ensures ResolveRow(ss, cells).value[k] == (CellColumn(cells[k]), CellValue(ss, cells[k]).value)
  {
    var init := cells[..|cells| - 1];
    if k < |init| {
      ResolveRowAt(ss, init, k);
    }
  }

  /** A row that fails, fails with the error of its first failing cell. */
  lemma {:induction false} ResolveRowFirstError(ss: seq<string>, cells: XmlRow)
    requires ResolveRow(ss, cells).Err?
    ensures exists k :: 0 <= k < |cells| && CellValue(ss, cells[k]) == Err(ResolveRow(ss, cells).error) &&
                        forall j :: 0 <= j < k ==> CellValue(ss, cells[j]).Ok?
  {
    var init := cells[..|cells| - 1];
    assert forall k :: 0 <= k < |init| ==> init[k] == cells[k];
    if ResolveRow(ss, init).Err? {
      ResolveRowFirstError(ss, init);
    } else {
      ResolveRowOk(ss, init);
      var k := |cells| - 1;
      assert CellValue(ss, cells[k]) == Err(ResolveRow(ss, cells).error);
    }
  }

  /** A worksheet decodes exactly when every one of its rows resolves. */
  lemma {:induction false} DecodeRowsOk(ss: seq<string>, rows: seq<XmlRow>)
    ensures DecodeRows(ss, rows).Ok? <==> forall i :: 0 <= i < |rows| ==> ResolveRow(ss, rows[i]).Ok?
  {
    if rows != [] {
      var init := rows[..|rows| - 1];
      DecodeRowsOk(ss, init);
      assert forall i :: 0 <= i < |init| ==> init[i] == rows[i];
    }
  }

  /** Row `i` of a decoded worksheet is laid out from the cells of its `i`-th `row` element. */
  lemma {:induction false} DecodeRowsAt(ss: seq<string>, rows: seq<XmlRow>, i: nat)
    requires DecodeRows(ss, rows).Ok? && i < |rows|
    ensures ResolveRow(ss, rows[i]).Ok?
    ensures DecodeRows(ss, rows).value[i] == Layout(ResolveRow(ss, rows[i]).value)
  {
    var init := rows[..|rows| - 1];
    if i < |init| {
      DecodeRowsAt(ss, init, i);
    }
  }

  /** An error in a prefix of a row is the error of the whole row. */
  lemma {:induction false} ResolveRowErrPrefix(ss: seq<string>, cells: XmlRow, k: nat)
    requires k <= |cells| && ResolveRow(ss, cells[..k]).Err?
    ensures ResolveRow(ss, cells) == ResolveRow(ss, cells[..k])
  {
    if k < |cells| {
      var init := cells[..|cells| - 1];
      assert init[..k] == cells[..k];
      ResolveRowErrPrefix(ss, init, k);
    } else {
      assert cells[..k] == cells;
    }
  }

  /** An error in a prefix of the rows is the error of the whole worksheet. */
  lemma {:induction false} DecodeRowsErrPrefix(ss: seq<string>, rows: seq<XmlRow>, k: nat)
    requires k <= |rows| && DecodeRows(ss, rows[..k]).Err?
    ensures DecodeRows(ss, rows) == DecodeRows(ss, rows[..k])
  {
    if k < |rows| {
      var init := rows[..|rows| - 1];
      assert init[..k] == rows[..k];
      DecodeRowsErrPrefix(ss, init, k);
    } else {
      assert rows[..k] == rows;
    }
  }

  // ------------------------------------------------------------------ layout properties

  /** Where the `k`-th placed cell ends up in its row. */
  function Position(placed: seq<(nat, string)>, k: nat): nat
    requires k < |placed|
  {
    |Layout(placed[..k + 1])| - 1
  }

  /** Placing later cells never changes the cells already in the row. */
  lemma {:induction false} LayoutExtends(placed: seq<(nat, string)>, k: nat)
    requires k <= |placed|
    ensures |Layout(placed[..k])| <= |Layout(placed)|
    ensures Layout(placed)[..|Layout(placed[..k])|] == Layout(placed[..k])
  {
    if k < |placed| {
      var init := placed[..|placed| - 1];
      assert init[..k] == placed[..k];
      LayoutExtends(init, k);
    } else {
      assert placed[..k] == placed;
    }
  }

  /**
   * Each cell lands at an index at or after its decoded column, holds its own value
   * there, and cells keep their document order.
   */
  lemma LayoutPosition(placed: seq<(nat, string)>, k: nat)
    requires k < |placed|
    ensures placed[k].0 <= Position(placed, k) < |Layout(placed)|
    ensures Layout(placed)[Position(placed, k)] == placed[k].1
    ensures k + 1 < |placed| ==> Position(placed, k) < Position(placed, k + 1)
  {
    var pre := placed[..k + 1];
    var p := Position(placed, k);
    assert pre[..k] == placed[..k];
    assert Layout(pre) == Place(Layout(placed[..k]), placed[k].0, placed[k].1);
    LayoutExtends(placed, k + 1);
    assert Layout(placed)[..|Layout(pre)|][p] == Layout(placed)[p];
    if k + 1 < |placed| {
      var pre2 := placed[..k + 2];
      assert pre2[..k + 1] == pre;
      assert |Layout(pre2)| > |Layout(pre)|;
    }
  }

  predicate ColumnsIncrease(placed: seq<(nat, string)>) {
    forall i, j :: 0 <= i < j < |placed| ==> placed[i].0 < placed[j].0
  }

  /**
   * With strictly increasing columns every cell sits exactly at its column, the row ends
   * at the last column, and every position no cell names holds "".
   */
  lemma {:induction false} LayoutAtColumns(placed: seq<(nat, string)>)
    requires ColumnsIncrease(placed)
    ensures |Layout(placed)| == if placed == [] then 0 else placed[|placed| - 1].0 + 1
    ensures forall k :: 0 <= k < |placed| ==> Layout(placed)[placed[k].0] == placed[k].1
    ensures forall p :: 0 <= p < |Layout(placed)| && (forall k :: 0 <= k < |placed| ==> placed[k].0 != p) ==>
              Layout(placed)[p] == ""
  {
    if placed != [] {
      var n := |placed|;
      var init := placed[..n - 1];
      LayoutAtColumns(init);
      var row := Layout(init);
      var r := Layout(placed);
      assert r == Place(row, placed[n - 1].0, placed[n - 1].1);
      assert |row| <= placed[n - 1].0 by {
        if init != [] { assert init[|init| - 1].0 < placed[n - 1].0; }
      }
      forall k | 0 <= k < n ensures r[placed[k].0] == placed[k].1 {
        if k < n - 1 {
          assert init[k] == placed[k];
          assert r[..|row|][placed[k].0] == row[placed[k].0];
        }
      }
      forall p | 0 <= p < |r| && (forall k :: 0 <= k < n ==> placed[k].0 != p) ensures r[p] == "" {
        if p < |row| {
          assert forall k :: 0 <= k < |init| ==> init[k].0 != p by {
            forall k | 0 <= k < |init| ensures init[k].0 != p { assert init[k] == placed[k]; }
          }
          assert r[..|row|][p] == row[p];
        }
      }
    }
  }

  /**
   * A worksheet row whose references name strictly increasing columns decodes to a row
   * with each cell's value at exactly its column and "" in every skipped position.
   */
  lemma RowAtColumns(ss: seq<string>, cells: XmlRow)
    requires ResolveRow(ss, cells).Ok?
    requires forall i, j :: 0 <= i < j < |cells| ==> CellColumn(cells[i]) < CellColumn(cells[j])
    ensures forall k :: 0 <= k < |cells| ==>
              CellValue(ss, cells[k]).Ok? &&
              Layout(ResolveRow(ss, cells).value)[CellColumn(cells[k])] == CellValue(ss, cells[k]).value
    ensures forall p :: 0 <= p < |Layout(ResolveRow(ss, cells).value)| &&
                        (forall k :: 0 <= k < |cells| ==> CellColumn(cells[k]) != p) ==>
              Layout(ResolveRow(ss, cells).value)[p] == ""
  {
    var placed := ResolveRow(ss, cells).value;
    forall k | 0 <= k < |cells|
      ensures CellValue(ss, cells[k]).Ok? && placed[k] == (CellColumn(cells[k]), CellValue(ss, cells[k]).value)
    {
      ResolveRowAt(ss, cells, k);
    }
    LayoutAtColumns(placed);
  }

  // ------------------------------------------------------------------ the reading loop

  /** One row of a worksheet: its laid-out cells, or the first cell's error. */
  function DecodeRow(ss: seq<string>, cells: XmlRow): Result<seq<string>, Error> {
    match ResolveRow(ss, cells)
    case Err(e) => Err(e)
    case Ok(placed) => Ok(Layout(placed))
  }

  /** The padding loop of `read_sheet`: append "" until the row reaches index `idx`. */
  method PadTo(row: seq<string>, idx: int) returns (padded: seq<string>)
    ensures padded == row + Blanks(if idx > |row| then idx - |row| else 0)
  {
    padded := row;
    while |padded| < idx
      invariant |row| <= |padded|
      invariant |padded| <= idx || padded == row
      invariant padded == row + Blanks(|padded| - |row|)
      decreases idx - |padded|
    {
      padded := padded + [""];
    }
  }

  /** The body of `read_sheet`'s row loop: pad up to each cell's column, then append its value. */
  method ReadRow(ss: seq<string>, cells: XmlRow) returns (r: Result<seq<string>, Error>)
    ensures r == DecodeRow(ss, cells)
  {
    var current: seq<string> := [];
    ghost var placed: seq<(nat, string)> := [];
    for j := 0 to |cells|
      invariant ResolveRow(ss, cells[..j]) == Ok(placed)
      invariant current == Layout(placed)
    {
      var cell := cells[j];
      var idx := CellRef.ColumnIndexFromRef(cell.ref.GetOr(""));
      ghost var start := current;
      current := PadTo(current, idx);
      assert cells[..j + 1][..j] == cells[..j];
      var value := CellValue(ss, cell);
      if value.Err? {
        ResolveRowErrPrefix(ss, cells, j + 1);
        assert cells[..|cells|] == cells;
        return Err(value.error);
      }
      assert current + [value.value] == Place(start, idx, value.value);
      assert (placed + [(idx, value.value)])[..|placed|] == placed;
      placed := placed + [(idx, value.value)];
      current := current + [value.value];
    }
    assert cells[..|cells|] == cells;
    return Ok(current);
  }

  /** `Workbook.read_sheet`: look the sheet up, then decode its rows in document order. */
  method ReadSheet(wb: Workbook, name: string) returns (r: Result<Matrix, Error>)
    ensures r == SheetMatrix(wb, name)
  {
    if name !in wb.sheets {
      return Err(UnknownSheet(name));
    }
    var path := "xl/" + wb.sheets[name];
    if path !in wb.parts {
      return Err(MissingPart(path));
    }
    var xmlRows := wb.parts[path];
    var ss := wb.sharedStrings;
    var rows: Matrix := [];
    for i := 0 to |xmlRows|
      invariant DecodeRows(ss, xmlRows[..i]) == Ok(rows)
    {
      var current := ReadRow(ss, xmlRows[i]);
      assert xmlRows[..i + 1][..i] == xmlRows[..i];
      if current.Err? {
        DecodeRowsErrPrefix(ss, xmlRows, i + 1);
        assert xmlRows[..|xmlRows|] == xmlRows;
        return Err(current.error);
      }
      rows := rows + [current.value];
    }
    assert xmlRows[..|xmlRows|] == xmlRows;
    return Ok(rows);
  }
}
