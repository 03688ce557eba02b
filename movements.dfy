/**
 * Movement extraction (`AutomationSimulator._load_movements`): find the ledger's header
 * row, keep the non-blank rows after it, and turn each row with at least four cells whose
 * concept is not a subtotal into a `Movement`.
 */
module Movements {
  import opened Wrappers
  import opened Text
  import Numbers

  /** One ledger line: date, concept, units, unit value and amount. */
  datatype Movement = Movement(
    fecha: string,
    concepto: string,
    cuotapartes: real,
    valor: Option<real>,
    importe: Option<real>)

  /** The ledger header: the first non-blank row with at least four cells. */
  predicate IsLedgerHeader(row: seq<string>) {
    NonBlank(row) && |row| >= 4
  }

  /** A subtotal line: its concept, lower-cased, starts with "total". */
  predicate IsTotalConcept(concepto: string) {
    StartsWith(Lower(concepto), "total")
  }

  /** A data row that yields a movement. */
  predicate IsCandidate(row: seq<string>) {
    |row| >= 4 && !IsTotalConcept(row[1])
  }

  /** A row after the header that yields a movement. */
  predicate IsMovementRow(row: seq<string>) {
    NonBlank(row) && IsCandidate(row)
  }

  /** Python's `x or d` on an optional float: both None and 0.0 give `d`. */
  function OrElse(x: Option<real>, d: real): real {
    if x.Some? && x.value != 0.0 then x.value else d
  }

  /** The movement a row yields: units default to 0.0, value and amount stay absent when not numeric. */
  function ToMovement(row: seq<string>): (m: Movement)
    requires |row| >= 4
    ensures m.fecha == row[0] && m.concepto == row[1]
    ensures m.cuotapartes == Numbers.NormalizeNumber(row[2]).GetOr(0.0)
    ensures m.valor == Numbers.NormalizeNumber(row[3])
    ensures m.importe == if |row| > 4 then Numbers.NormalizeNumber(row[4]) else None
  {
    Movement(row[0], row[1], OrElse(Numbers.NormalizeNumber(row[2]), 0.0),
             Numbers.NormalizeNumber(row[3]),
             if |row| > 4 then Numbers.NormalizeNumber(row[4]) else None)
  }

  function HeaderIndex(rows: Matrix): Option<nat> {
    FirstWhere(rows, IsLedgerHeader)
  }

  /** The non-blank rows among rows lo..hi-1, in order. */
  function NonBlankRows(rows: Matrix, lo: nat, hi: nat): Matrix
    requires lo <= hi <= |rows|
    decreases hi - lo
  {
    if hi == lo then []
    else NonBlankRows(rows, lo, hi - 1) + (if NonBlank(rows[hi - 1]) then [rows[hi - 1]] else [])
  }

  /** The rows the first loop collects: the non-blank rows after the header. */
  function DataRows(rows: Matrix): Matrix {
    match HeaderIndex(rows)
    case None => []
    case Some(h) => NonBlankRows(rows, h + 1, |rows|)
  }

  /** The movements the second loop builds from the collected rows. */
  function Candidates(data: Matrix): seq<Movement> {
    if data == [] then []
    else
      var last := data[|data| - 1];
      Candidates(data[..|data| - 1]) + (if IsCandidate(last) then [ToMovement(last)] else [])
  }

  /** What `_load_movements` returns for a decoded ledger sheet. */
  function LedgerMovements(rows: Matrix): seq<Movement> {
    Candidates(DataRows(rows))
  }

  /** The indices in [lo, hi) of the rows that yield movements, in increasing order. */
  function MovementIndices(rows: Matrix, lo: nat, hi: nat): (idx: seq<nat>)
    requires lo <= hi <= |rows|
    decreases hi - lo
  {
    if hi == lo then []
    else MovementIndices(rows, lo, hi - 1) + (if IsMovementRow(rows[hi - 1]) then [hi - 1] else [])
  }

  /** The indices are exactly the movement rows of the range, each once, in increasing order. */
  lemma {:induction false} MovementIndicesFacts(rows: Matrix, lo: nat, hi: nat)
    requires lo <= hi <= |rows|
    ensures forall k :: 0 <= k < |MovementIndices(rows, lo, hi)| ==>
              lo <= MovementIndices(rows, lo, hi)[k] < hi && IsMovementRow(rows[MovementIndices(rows, lo, hi)[k]])
    ensures forall k, l :: 0 <= k < l < |MovementIndices(rows, lo, hi)| ==>
              MovementIndices(rows, lo, hi)[k] < MovementIndices(rows, lo, hi)[l]
    ensures forall j :: lo <= j < hi && IsMovementRow(rows[j]) ==> j in MovementIndices(rows, lo, hi)
    decreases hi - lo
  {
    if hi > lo {
      MovementIndicesFacts(rows, lo, hi - 1);
    }
  }

  lemma CandidatesSnoc(data: Matrix, r: seq<string>)
    ensures IsCandidate(r) ==> Candidates(data + [r]) == Candidates(data) + [ToMovement(r)]
    ensures !IsCandidate(r) ==> Candidates(data + [r]) == Candidates(data)
  {
    var d := data + [r];
    assert d[..|d| - 1] == data && d[|d| - 1] == r;
  }

  /** One more row of the range: what the two filters and the index list gain. */
  lemma RangeStep(rows: Matrix, lo: nat, hi: nat)
    requires lo < hi <= |rows|
    ensures var r := rows[hi - 1];
            (NonBlank(r) ==> NonBlankRows(rows, lo, hi) == NonBlankRows(rows, lo, hi - 1) + [r]) &&
            (!NonBlank(r) ==> NonBlankRows(rows, lo, hi) == NonBlankRows(rows, lo, hi - 1)) &&
            (IsMovementRow(r) ==> MovementIndices(rows, lo, hi) == MovementIndices(rows, lo, hi - 1) + [hi - 1]) &&
            (!IsMovementRow(r) ==> MovementIndices(rows, lo, hi) == MovementIndices(rows, lo, hi - 1))
  {
    var pre, idx0 := NonBlankRows(rows, lo, hi - 1), MovementIndices(rows, lo, hi - 1);
    assert pre + [] == pre && idx0 + [] == idx0;
  }

  lemma AppendPointwise(c0: seq<Movement>, idx0: seq<nat>, rows: Matrix, j: nat)
    requires |c0| == |idx0| && j < |rows| && |rows[j]| >= 4
    requires forall k :: 0 <= k < |idx0| ==> idx0[k] < |rows| && |rows[idx0[k]]| >= 4 && c0[k] == ToMovement(rows[idx0[k]])
    ensures forall k :: 0 <= k < |idx0| + 1 ==>
              (idx0 + [j])[k] < |rows| && |rows[(idx0 + [j])[k]]| >= 4 &&
              (c0 + [ToMovement(rows[j])])[k] == ToMovement(rows[(idx0 + [j])[k]])
  {
  }

  /** The two filters of `_load_movements` over rows lo..hi-1 keep exactly the movement rows. */
  lemma {:induction false} CandidatesOfRange(rows: Matrix, lo: nat, hi: nat)
    requires lo <= hi <= |rows|
    ensures |Candidates(NonBlankRows(rows, lo, hi))| == |MovementIndices(rows, lo, hi)|
    ensures forall k :: 0 <= k < |MovementIndices(rows, lo, hi)| ==>
              MovementIndices(rows, lo, hi)[k] < |rows| && |rows[MovementIndices(rows, lo, hi)[k]]| >= 4 &&
              Candidates(NonBlankRows(rows, lo, hi))[k] == ToMovement(rows[MovementIndices(rows, lo, hi)[k]])
    decreases hi - lo
  {
    if hi > lo {
      CandidatesOfRange(rows, lo, hi - 1);
      var r := rows[hi - 1];
      var pre := NonBlankRows(rows, lo, hi - 1);
      RangeStep(rows, lo, hi);
      if NonBlank(r) {
        CandidatesSnoc(pre, r);
      }
      if IsMovementRow(r) {
        AppendPointwise(Candidates(pre), MovementIndices(rows, lo, hi - 1), rows, hi - 1);
      }
    }
  }

  /**
   * The movements of a ledger: none without a header; otherwise one per row after the
   * header that is non-blank, has at least four cells and is not a subtotal, in row order.
   * The header row itself and every blank row are never emitted.
   */
  lemma LedgerMovementsFromRows(rows: Matrix)
    ensures HeaderIndex(rows).None? ==> LedgerMovements(rows) == []
    ensures HeaderIndex(rows).Some? ==>
              var idx := MovementIndices(rows, HeaderIndex(rows).value + 1, |rows|);
              |LedgerMovements(rows)| == |idx| &&
              forall k :: 0 <= k < |idx| ==>
                idx[k] < |rows| && |rows[idx[k]]| >= 4 && LedgerMovements(rows)[k] == ToMovement(rows[idx[k]])
  {
    if HeaderIndex(rows).Some? {
      var h := HeaderIndex(rows).value;
      CandidatesOfRange(rows, h + 1, |rows|);
    }
  }

  /** The first loop of `_load_movements`: find the header, then collect the non-blank rows after it. */
  method CollectDataRows(rows: Matrix) returns (dataRows: Matrix)
    ensures dataRows == DataRows(rows)
  {
    var header: Option<seq<string>> := None;
    ghost var h: nat := 0;
    dataRows := [];
    for i := 0 to |rows|
      invariant header.None? ==> dataRows == [] && forall k :: 0 <= k < i ==> !IsLedgerHeader(rows[k])
      invariant header.Some? ==> h < i && HeaderIndex(rows) == Some(h) && dataRows == NonBlankRows(rows, h + 1, i)
    {
      var row := rows[i];
      if !NonBlank(row) {
        continue;
      }
      if header.None? && |row| >= 4 {
        header := Some(row);
        h := i;
        continue;
      }
      if header.Some? {
        dataRows := dataRows + [row];
      }
    }
  }

  /** The second loop of `_load_movements`: one movement per collected row that has four cells and is not a subtotal. */
  method BuildMovements(dataRows: Matrix) returns (movements: seq<Movement>)
    ensures movements == Candidates(dataRows)
  {
    movements := [];
    for k := 0 to |dataRows|
      invariant movements == Candidates(dataRows[..k])
    {
      assert dataRows[..k + 1][..k] == dataRows[..k];
      var row := dataRows[k];
      if |row| < 4 {
        continue;
      }
      var fecha, concepto := row[0], row[1];
      if StartsWith(Lower(concepto), "total") {
        continue;
      }
      var cuotapartes := OrElse(Numbers.NormalizeNumber(row[2]), 0.0);
      var valor := Numbers.NormalizeNumber(row[3]);
      var importe := if |row| > 4 then Numbers.NormalizeNumber(row[4]) else None;
      movements := movements + [Movement(fecha, concepto, cuotapartes, valor, importe)];
    }
    assert dataRows[..|dataRows|] == dataRows;
  }

  /** `_load_movements` over the decoded ledger sheet. */
  method LoadMovements(rows: Matrix) returns (movements: seq<Movement>)
    ensures movements == LedgerMovements(rows)
  {
    var dataRows := CollectDataRows(rows);
    movements := BuildMovements(dataRows);
  }
}
