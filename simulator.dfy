/**
 * The simulation run (`AutomationSimulator.run`): the ledger sheet yields the movements and
 * the FIFO balance; two summary sheets yield column totals; five figures form the report.
 */
module Simulator {
  import opened Wrappers
  import opened Text
  import SheetReader
  import Movements
  import Fifo
  import Tables

  /** The sheet holding the fund's movement ledger. */
  const LedgerSheet: string := "SBSAhorroPesosClaseD"
  /** The summary sheet of the fund's income-tax valuation. */
  const FundSheet: string := "FCI Ganancias"
  /** The summary sheet of redemptions for the gross-income tax. */
  const RedemptionSheet: string := "Rescates IIBB"

  /** Column headers whose totals the report carries. */
  const TaxValuation: string := "Valuación Impositiva"
  const BookValuation: string := "Valuación Contable"
  const DomesticIncome: string := "Rdo Imp X VTA"

  /** The dictionary `run` returns, one field per key. */
  datatype Report = Report(
    saldo_cuotapartes: real,
    saldo_valorizado: real,
    total_valuacion_impositiva: real,
    total_valuacion_contable: real,
    total_rentas_fuente_arg: real)

  /** The report built from the final FIFO state and the two tables' totals. */
  function Summary(s: Fifo.State, fci: Tables.Totals, rescates: Tables.Totals): Report {
    Report(Fifo.SumUnits(s.lotes), Fifo.Valuation(s),
           Tables.Get(fci, TaxValuation), Tables.Get(fci, BookValuation),
           Tables.Get(rescates, DomesticIncome))
  }

  /** What `run` returns for a workbook, or the error of the first sheet that cannot be read. */
  function Simulation(wb: SheetReader.Workbook): Result<Report, SheetReader.Error> {
    match SheetReader.SheetMatrix(wb, LedgerSheet)
    case Err(e) => Err(e)
    case Ok(ledger) =>
      match SheetReader.SheetMatrix(wb, FundSheet)
      case Err(e) => Err(e)
      case Ok(fund) =>
        match SheetReader.SheetMatrix(wb, RedemptionSheet)
        case Err(e) => Err(e)
        case Ok(rescates) =>
          Ok(Summary(Fifo.Replay(Movements.LedgerMovements(ledger)),
                     Tables.TableTotals(fund), Tables.TableTotals(rescates)))
  }

  /**
   * `run` fails exactly when one of the three sheets cannot be read, and then with the
   * error of the first of them in reading order: ledger, fund summary, redemptions.
   */
  lemma RunFailure(wb: SheetReader.Workbook)
    ensures Simulation(wb).Err? <==>
              SheetReader.SheetMatrix(wb, LedgerSheet).Err? ||
              SheetReader.SheetMatrix(wb, FundSheet).Err? ||
              SheetReader.SheetMatrix(wb, RedemptionSheet).Err?
    ensures SheetReader.SheetMatrix(wb, LedgerSheet).Err? ==>
              Simulation(wb) == Err(SheetReader.SheetMatrix(wb, LedgerSheet).error)
    ensures SheetReader.SheetMatrix(wb, LedgerSheet).Ok? && SheetReader.SheetMatrix(wb, FundSheet).Err? ==>
              Simulation(wb) == Err(SheetReader.SheetMatrix(wb, FundSheet).error)
    ensures SheetReader.SheetMatrix(wb, LedgerSheet).Ok? && SheetReader.SheetMatrix(wb, FundSheet).Ok? &&
            SheetReader.SheetMatrix(wb, RedemptionSheet).Err? ==>
              Simulation(wb) == Err(SheetReader.SheetMatrix(wb, RedemptionSheet).error)
  {
  }

  /**
   * The report of a readable workbook: the unit balance is the sum of
   * the lots FIFO leaves open and the valued balance is it times the last known unit value;
   * each total is its column's sum under the first header row of its sheet, 0.0 without one.
   */
  lemma ReportValues(wb: SheetReader.Workbook, ledger: Matrix, fund: Matrix, rescates: Matrix)
    requires SheetReader.SheetMatrix(wb, LedgerSheet) == Ok(ledger)
    requires SheetReader.SheetMatrix(wb, FundSheet) == Ok(fund)
    requires SheetReader.SheetMatrix(wb, RedemptionSheet) == Ok(rescates)
    ensures Simulation(wb).Ok?
    ensures var s := Fifo.Replay(Movements.LedgerMovements(ledger));
            Simulation(wb).value.saldo_cuotapartes == Fifo.SumUnits(s.lotes) &&
            Simulation(wb).value.saldo_valorizado == Fifo.Valuation(s)
    ensures Simulation(wb).value.total_valuacion_impositiva == Tables.ColumnTotal(fund, TaxValuation)
    ensures Simulation(wb).value.total_valuacion_contable == Tables.ColumnTotal(fund, BookValuation)
    ensures Simulation(wb).value.total_rentas_fuente_arg == Tables.ColumnTotal(rescates, DomesticIncome)
  {
    Tables.ColumnTotalOf(fund, TaxValuation);
    Tables.ColumnTotalOf(fund, BookValuation);
    Tables.ColumnTotalOf(rescates, DomesticIncome);
  }

  /** When every subscription in the ledger adds non-negative units, the unit balance is non-negative. */
  lemma BalanceNonNegative(wb: SheetReader.Workbook, ledger: Matrix)
    requires SheetReader.SheetMatrix(wb, LedgerSheet) == Ok(ledger)
    requires Simulation(wb).Ok?
    requires var ms := Movements.LedgerMovements(ledger);
             forall k :: 0 <= k < |ms| && Fifo.IsSubscription(ms[k]) ==> ms[k].cuotapartes >= 0.0
    ensures Simulation(wb).value.saldo_cuotapartes >= 0.0
  {
    Fifo.ReplayNonNegative(Movements.LedgerMovements(ledger));
  }

  /** `AutomationSimulator.run` on an opened workbook. */
  method Run(wb: SheetReader.Workbook) returns (r: Result<Report, SheetReader.Error>)
    ensures r == Simulation(wb)
  {
    var ledger := SheetReader.ReadSheet(wb, LedgerSheet);
    if ledger.Err? {
      return Err(ledger.error);
    }
    var movimientos := Movements.LoadMovements(ledger.value);
    var saldoCuotas, saldoValorizado := Fifo.SimulateFifo(movimientos);
    var fund := SheetReader.ReadSheet(wb, FundSheet);
    if fund.Err? {
      return Err(fund.error);
    }
    var totalesFci := Tables.SumTable(fund.value);
    var rescates := SheetReader.ReadSheet(wb, RedemptionSheet);
    if rescates.Err? {
      return Err(rescates.error);
    }
    var totalesRescates := Tables.SumTable(rescates.value);
    return Ok(Report(saldoCuotas, saldoValorizado,
                     Tables.Get(totalesFci, TaxValuation), Tables.Get(totalesFci, BookValuation),
                     Tables.Get(totalesRescates, DomesticIncome)));
  }
}
