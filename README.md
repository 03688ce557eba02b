# FIFO fund-balance simulator, modelled in Dafny

This project is a Dafny model of the command-line simulator in `app.py`. The simulator estimates a mutual-fund position from a spreadsheet export. It reads a workbook and decodes three sheets into text matrices:

- the movement ledger `SBSAhorroPesosClaseD`, which yields a list of movements (subscriptions and redemptions);
- the two summary sheets `FCI Ganancias` and `Rescates IIBB`.

Subscriptions and redemptions are matched first-in-first-out against open lots, and the remaining units are valued at the last known unit value. Each summary sheet is totalled column by column under its header row. The report holds five figures: the unit balance, the valued balance, and three column totals, each defaulting to 0.0.

One module per part of the pipeline, one file each:

| file | module | models |
|---|---|---|
| `wrappers.dfy` | `Wrappers` | `Option` and `Result` |
| `text.dfy` | `Text` | the text matrix, ASCII `upper`/`lower`, `startswith`, `any(row)`, header search |
| `cellref.dfy` | `CellRef` | `column_index_from_ref`: letters of a cell reference (ECMA-376 Part 1, section 18.3.1.4) as a bijective base-26 number |
| `numbers.dfy` | `Numbers` | `normalize_number`: `strip`, removing spaces, the thousands/decimal separator rewrite, and a decimal stand-in for `float()` |
| `sheetreader.dfy` | `SheetReader` | `Workbook`: the sheet directory join, shared-string lookup (ECMA-376 Part 1, section 18.4) and `read_sheet`'s row layout |
| `movements.dfy` | `Movements` | `Movement` and `_load_movements` |
| `fifo.dfy` | `Fifo` | `_simulate_fifo`: lots, redemption and the last known value |
| `tables.dfy` | `Tables` | `_sum_table` |
| `simulator.dfy` | `Simulator` | `AutomationSimulator.run` |

Each loop of the source is a method whose `ensures` ties its result to a recursive specification function. These loops are:

- the column-letter loop;
- the sheet loop of `_load_sheet_map` (`SheetReader.ReadSheetMap`);
- the padding and row loops of `read_sheet`;
- both loops of `_load_movements`;
- the movement loop and the redemption `while` loop of `_simulate_fifo`;
- both loops of `_sum_table`.

The relationship dictionary comprehension of `_load_sheet_map` is an expression, so it is the function `SheetReader.RelationshipMap`. The properties the source promises are lemmas about those functions.

Modelling choices:

- Quantities are exact `real`s, and the tolerance `1e-9` is `Fifo.Tolerance`.
- The report dictionary is the record `Simulator.Report`, with one field per key. The keys are `saldo_cuotapartes`, `saldo_valorizado`, `total_valuacion_impositiva`, `total_valuacion_contable` and `total_rentas_fuente_arg`.
- Exceptions the reader lets escape are `SheetReader.Error` values:
  - `KeyError` for an unknown sheet, a missing worksheet part or an unknown relationship;
  - `ValueError`/`IndexError` for a bad shared-string index.

## Model

| member | source | states |
|---|---|---|
| CellRef.ColumnIndex | app.py:21-29 | the result is never negative; with no leading capital letters it is the reference's length; otherwise it is one less than the base-26 value of the letter prefix |
| CellRef.ColumnIndexFromRef | app.py:21-29 | the accumulating loop computes `ColumnIndex` of the reference, which is at least 0 |
| CellRef.PrefixLength | app.py:23 | the `[A-Z]+` match: the prefix is all capitals and the character after it is not one |
| CellRef.LettersRoundTrip | app.py:26-29 | writing a positive number in column letters and reading it back gives the number |
| CellRef.LettersValueRoundTrip | app.py:26-29 | every non-empty capital-letter string is the column-letter spelling of its value, so the decoding is one-to-one |
| CellRef.ColumnNameDecodes | app.py:21-29 | for every column `c`, the letters of `c` followed by a row part that does not start with a capital decode back to `c` |
| CellRef.ColumnNameOnto | app.py:21-29 | every letter prefix is the name of the column it decodes to |
| CellRef.ColumnIndexExamples | app.py:22-25 | "A1" is 0, "Z9" 25, "AA1" 26, "BC5" 54; the letterless "12" falls back to its length 2; column 701 is "ZZ" |
| Text.UpperAt | app.py:174 | `upper()` maps each character on its own and keeps the length |
| Text.LowerAt | app.py:159 | `lower()` maps each character on its own and keeps the length |
| Text.CountNonEmpty | app.py:206-207 | the count of non-empty cells is at most the row length, and is 0 exactly when `any(row)` is false |
| Text.FirstWhere | app.py:146-151 | the header search returns the first index whose row qualifies, and none when no row qualifies |
| Numbers.Strip | app.py:41 | `strip()`: the text without its leading and trailing whitespace |
| Numbers.CleanNumber | app.py:44-48 | spaces are dropped; with both separators the points are dropped and commas become points; with only commas they become points |
| Numbers.ParseFloat | app.py:50 | the stand-in for `float()`: an optional sign followed by an unsigned decimal numeral |
| Numbers.NormalizeNumber | app.py:32-52 | `normalize_number`: None for blank text, otherwise the parse of the cleaned, stripped text |
| Numbers.StripEmpty | app.py:41-43 | `strip()` gives "" exactly when every character is whitespace |
| Numbers.StripEnds | app.py:41 | a non-empty stripped text starts and ends with non-whitespace |
| Numbers.StripNoSpace | app.py:41 | text without whitespace is unchanged by `strip()` |
| Numbers.NormalizeBlank | app.py:41-43 | empty or all-whitespace text is not a number |
| Numbers.HasIn | app.py:45-47 | the character-by-character membership test is Python's `in` |
| Numbers.CleanNumberShape | app.py:44-48 | the string handed to `float()` has no space and no comma; it keeps every digit and sign in order; it holds as many points as the input had commas when a comma occurs, and otherwise as many as it had points |
| Numbers.CleanBoth | app.py:45-46 | with both separators, every point is dropped and each comma becomes the decimal point |
| Numbers.CleanCommaOnly | app.py:47-48 | with only commas, each comma becomes a point |
| Numbers.CleanPlain | app.py:44-48 | without commas, the space-free text is passed on unchanged |
| Numbers.NormalizeUnspaced | app.py:41-52 | for non-empty text without whitespace, the result is the parse of the cleaned text |
| Numbers.CommaIsDecimalPoint | app.py:47-50 | for digit runs `a` and `b`, "a,b" and "a.b" normalise to the same value |
| Numbers.ThousandsDotDropped | app.py:45-50 | for digit runs, "a.b,c" normalises to the value of "ab.c" |
| Numbers.ParseFloatExample | app.py:50 | the decimal parser reads "1234.56" as 1234.56 |
| Numbers.NormalizeGroupedExample | app.py:32-52 | "1.234,56" is 1234.56 |
| Numbers.NormalizePlainExample | app.py:32-52 | "1234.56" is 1234.56 |
| Numbers.NormalizeRejectExamples | app.py:41-52 | "", "  " and "abc" are not numbers |
| Numbers.ParseInt | app.py:107 | `int()` accepts exactly an optional sign followed by at least one digit, and gives the digits' value, negated after '-' |
| SheetReader.SheetDirectory | app.py:82-86 | the sheet loop: each (name, relId) in document order is stored under its name with the relationship's target, or the first unknown Id fails the build |
| SheetReader.LoadSheetMap | app.py:75-87 | `_load_sheet_map`: the sheet loop run against the relationship dictionary |
| SheetReader.ReadSheetMap | app.py:75-87 | the sheet loop, written as a loop, returns `LoadSheetMap`: the map of every sheet or the first unknown Id |
| SheetReader.SheetDirectoryErrPrefix | app.py:83-86 | once a prefix of the sheets fails, the whole build fails with the same error, so the loop may stop there |
| SheetReader.RelationshipMap | app.py:81 | the relationship dictionary has exactly the Ids that occur |
| SheetReader.RelationshipLastWins | app.py:81 | for a repeated Id, the last relationship's target is kept |
| SheetReader.SheetDirectoryOk | app.py:82-86 | building the sheet map succeeds exactly when every sheet's relationship Id is known |
| SheetReader.SheetDirectoryFirstError | app.py:83-86 | a failed build reports the first sheet, in document order, whose Id is unknown |
| SheetReader.SheetDirectoryNames | app.py:82-87 | the sheet map's names are exactly the sheets' names |
| SheetReader.SheetDirectoryAt | app.py:82-87 | a sheet name not repeated later gets its relationship's target |
| SheetReader.OpenWorkbook | app.py:58-64 | opening succeeds exactly when every sheet's relationship Id is known; it then keeps the shared strings and the parts, and its sheet map has exactly the sheets' names, and a name not repeated later maps to its relationship's target, the path `read_sheet` opens; otherwise it fails with the first unknown Id in document order |
| SheetReader.SharedString | app.py:106-107 | the lookup fails exactly when the text is not an integer or lies outside `-len..len-1`; otherwise it returns the entry at that index, counted from the end when negative, as Python list indexing does; a bad index fails with that text |
| SheetReader.SheetMatrix | app.py:89-93 | `read_sheet`: an unknown name fails, a target whose part "xl/…" is absent fails, and otherwise the part's rows are decoded |
| SheetReader.DecodeRow | app.py:96-108 | one row: its cells resolved and laid out, or the first cell's error |
| SheetReader.Layout | app.py:96-108 | the row built from resolved cells in document order is at least as long as the number of cells |
| SheetReader.CellValue | app.py:102-108 | no value node gives ""; type "s" gives the shared string; anything else gives the raw text |
| SheetReader.ResolveRow | app.py:97-108 | a resolved row has one entry per cell |
| SheetReader.ResolveRowOk | app.py:97-108 | a row resolves exactly when each of its cells does |
| SheetReader.ResolveRowAt | app.py:97-108 | entry `k` of a resolved row is cell `k`'s column and value |
| SheetReader.ResolveRowFirstError | app.py:97-108 | a failing row reports the error of its first failing cell |
| SheetReader.DecodeRows | app.py:95-110 | a decoded sheet has exactly one row per row element |
| SheetReader.DecodeRowsOk | app.py:95-110 | a sheet decodes exactly when each of its rows resolves |
| SheetReader.DecodeRowsAt | app.py:95-110 | row `i` of the matrix is the layout of row element `i`, so document order is kept |
| SheetReader.Place | app.py:100-108 | appending a cell keeps the row built so far, pads "" up to the cell's column, and puts the value last |
| SheetReader.LayoutExtends | app.py:96-108 | a row only grows: the layout of a prefix of the cells is a prefix of the layout |
| SheetReader.LayoutPosition | app.py:96-108 | each cell lands at an index no smaller than its decoded column, holding its value, and later cells land further right |
| SheetReader.LayoutAtColumns | app.py:96-108 | with strictly increasing columns, the row is as long as the last column plus one; each cell sits exactly at its column; every other position is "" |
| SheetReader.RowAtColumns | app.py:96-108 | the same, stated for a worksheet row whose references strictly increase |
| SheetReader.PadTo | app.py:100-101 | the padding loop appends exactly as many "" as the column index exceeds the row's length |
| SheetReader.ReadRow | app.py:96-108 | the cell loop builds the row's layout, or fails with the first failing cell's error |
| SheetReader.ReadSheet | app.py:89-110 | unknown sheet, missing part, or the decoded matrix; the first error stops the read |
| Movements.DataRows | app.py:141-153 | the rows the first loop collects: none without a header, otherwise the non-blank rows after it |
| Movements.Candidates | app.py:154-164 | one movement per collected row that has four cells and is not a subtotal, in order |
| Movements.LedgerMovements | app.py:141-165 | `_load_movements`: the candidates among the collected rows |
| Movements.ToMovement | app.py:158-164 | date and concept are the first two cells; `x or 0.0` on the units equals "0.0 when not numeric"; value and amount stay absent when not numeric, and the amount also when there is no fifth cell |
| Movements.MovementIndicesFacts | app.py:146-157 | the index list holds every movement row of the range, each once and in increasing order, and nothing else |
| Movements.CandidatesOfRange | app.py:146-164 | the two filters together keep exactly the non-blank rows of four or more cells whose concept is not a subtotal, in order |
| Movements.LedgerMovementsFromRows | app.py:141-165 | no header gives no movements; otherwise the movements are, in row order, those of the movement rows after the header, so the header and blank rows are never emitted |
| Movements.CollectDataRows | app.py:144-153 | the first loop returns the non-blank rows after the first non-blank row of four or more cells |
| Movements.BuildMovements | app.py:154-165 | the second loop returns one movement per collected row that has four cells and is not a subtotal |
| Movements.LoadMovements | app.py:141-165 | `_load_movements` returns the ledger's movements as characterised above |
| Fifo.Redeem | app.py:177-186 | the redemption loop: take from the front lot the lesser of its units and the request, drop it once within tolerance of zero, and stop when the request is within tolerance or no lot is left |
| Fifo.Replay | app.py:169-186 | the movements applied in order from no lots and last value 0.0 |
| Fifo.Step | app.py:171-186 | the last value is updated only by a present `valor`; a subscription appends one lot at the updated last value (so `valor or ultimo_valor` never differs from it); a redemption runs the redemption loop on `abs(units)`; any other concept leaves the lots unchanged |
| Fifo.RedeemLots | app.py:177-186 | the `while` loop terminates and leaves exactly the lots of `Redeem` |
| Fifo.RedeemConservation | app.py:176-186 | on non-negative lots, redeeming `f >= 0` keeps the lots non-negative; the open total never becomes negative or grows; it falls by `min(f, total)` within the tolerance |
| Fifo.RedeemTouchesFront | app.py:178-186 | redemption drops lots from the front and may shrink only the new front lot, whose unit value is kept; the lots behind it keep their order and contents |
| Fifo.RedeemAcrossLots | app.py:178-186 | redeeming 120 from lots of 100 and 50 leaves 30 of the second lot |
| Fifo.RedeemBeyondLots | app.py:178-186 | redeeming more than is open empties the lots without error |
| Fifo.SumUnitsNonNegative | app.py:187 | non-negative lots sum to a non-negative balance |
| Fifo.LastKnownValue | app.py:170-173 | the last value is 0.0 when no movement has a `valor`, and otherwise the last present `valor` |
| Fifo.ReplayNonNegative | app.py:169-187 | when every subscription adds non-negative units, every lot and the balance stay non-negative |
| Fifo.ReplayAppend | app.py:171 | movements are applied one after another, in order |
| Fifo.SubscriptionConcept | app.py:174-175 | a concept starting with "SUSCRIPCION" is a subscription and not a redemption |
| Fifo.RedemptionConcept | app.py:174-177 | a concept starting with "RESCATE" is a redemption and not a subscription |
| Fifo.SubscriptionIsNotRedemption | app.py:174-177 | no concept is both a subscription and a redemption, so the two branches never overlap |
| Fifo.SingleSubscriptionExample | app.py:167-189 | one subscription of 100 at 10 leaves 100 units valued at 1000 |
| Fifo.OldestLotFirstExample | app.py:174-186 | subscribing 100 at 10 and 50 at 12, then redeeming 120, leaves 30 units of the newer lot at 12 |
| Fifo.OverRedemptionExample | app.py:172-186 | a subscription without a value opens its lot at the last known value; redeeming -50 against 30 open units empties the lots |
| Fifo.SimulateFifo | app.py:167-189 | the unit balance is the open units after replaying every movement; the valued balance is that times the last known value |
| Tables.AddCells | app.py:200-203 | each numeric cell of a parsed row, left to right, is added to the total named by the header above it |
| Tables.AddRows | app.py:196-203 | rows of the header's width are added in order; rows of another width are skipped |
| Tables.TableTotals | app.py:191-209 | `_sum_table`: no totals without a header row, otherwise the rows after the first header row added from empty totals |
| Tables.CreditAt | app.py:203 | crediting a column creates its key, adds the amount to it and leaves every other total alone |
| Tables.AddCellsAt | app.py:200-203 | adding a row creates a key only for a column with a numeric cell, and adds that column's sum |
| Tables.AddRowsAt | app.py:196-203 | over rows of the header's width, a key exists exactly when its column has a numeric cell, and holds the column's sum |
| Tables.CellSumAbsent | app.py:200-203 | a row without a numeric cell under a name adds nothing to it |
| Tables.ColumnSumAbsent | app.py:196-203 | a column with no numeric cell sums to 0.0 |
| Tables.TableTotalsAt | app.py:191-209 | no row with two non-empty cells gives no totals; otherwise the keys and sums are those of the rows after the first such row having its width |
| Tables.ColumnTotalOf | app.py:191-209 | `get(name, 0.0)` on the totals is the column's sum under the first header row, and 0.0 without a header |
| Tables.FirstHeader | app.py:204-208 | the row the loop adopts as header is the first row with two non-empty cells |
| Tables.AddRowCells | app.py:200-203 | the inner loop adds each numeric cell of a row to its column's total |
| Tables.SumTable | app.py:191-209 | `_sum_table` returns the totals characterised above |
| Simulator.Simulation | app.py:128-139 | `run`: the three sheets read in order, the ledger replayed and both tables totalled into the report, or the first read error |
| Simulator.RunFailure | app.py:128-132 | the run fails exactly when one of the three sheets cannot be read, with the error of the first such sheet in reading order |
| Simulator.ReportValues | app.py:128-139 | on a readable workbook, the unit and valued balances are those of the ledger's FIFO replay; each total is its column's sum under the sheet's first header row, or 0.0 |
| Simulator.BalanceNonNegative | app.py:129-134 | when the ledger's subscriptions add non-negative units, the reported unit balance is non-negative |
| Simulator.Run | app.py:128-139 | `run` reads the ledger, replays it, sums both tables and reports, or fails with the first read error |

## Left out

- ZIP archive access and XML parsing are not modelled (`zipfile`, `ElementTree`, namespaces). A worksheet is given as its row elements, each a sequence of cells reduced to the `r` and `t` attributes and the text of `v`. The sheet directory takes the parsed (name, relId) and (Id, Target) pairs.
- `_load_shared_strings` is not modelled: the shared-string table is given.
- The file-existence check and `FileNotFoundError` are I/O. So is closing the member streams opened with `with`.
- `float()` is replaced by a decimal grammar: an optional sign, digits, and an optional point followed by digits. Exponents, `inf`, `nan`, underscores, surrounding-whitespace rules and IEEE rounding are not modelled. Numbers are exact reals.
- `int()` for shared-string indices accepts an optional sign and digits only. Surrounding whitespace and underscores are not modelled.
- `upper()` and `lower()` are modelled for ASCII letters only. Other characters are kept as they are.
- The `text is None` guard of `normalize_number` is not modelled: a cell value is always a string.
- Float summation order and rounding are not modelled: sums are exact.
- Simulator.Report: the result dictionary is a record with one field per key, so key insertion order is not represented.
- `build_parser`, `main` and the printing of the report are argparse and output.
- `web_app.py` (HTTP upload handling) and `static/app.js` (the browser interface) are not part of this model.
