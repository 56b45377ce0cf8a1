# SAP export ingestion core, modelled in Dafny

This project models the part of the SAP order watcher that turns an Excel
export of SAP transaction COHV into orders. The modelled parts are:

- **WBS elements** (`ApiWbs`, wbs.rs). A raw text is classified into no WBS, a cost center, a
  hard-dollar (HD) element or a legacy element. Three unanchored regular
  expressions are tried in a fixed order. The same module holds the `Display`
  text of each kind and the two conversions `into_hd_wbs` and `set_id`.
- **Plants and orders** (`ApiPlant`, `ApiOrder`; plant.rs, order.rs). These are the
  plant codes HS01/HS02, the order-type codes PP01/PR, and the order data record with its in-place
  quantity update.
- **The generic table reader** (`ExcelTable`, excel.rs). It takes a header row,
  scans it into a column index map and reports the columns that are still missing.
  It then hands every data row to the row parser of a table schema.
- **The COHV schema** (`ExcelCohv`, cohv.rs). This is the six columns, the header texts
  that name them, the row parser that builds an order from one row, and the
  entry point `parse_cohv_xl`, which keeps only the rows that parsed.

A Rust call either returns (`Ok` or `Err`) or panics. The model writes this as
`Outcome = Returns(Result) | Panics`. Panics on data that comes from the file
are part of the model:

- a header cell that is not text;
- a column with no index, or a row too short for an index;
- an unknown plant code or order type;
- a workbook without a sheet or a sheet without a row.

A panic that only a programmer error could reach is a precondition instead:

- `into_hd_wbs` on a cost center;
- `set_id` on anything but an HD;
- `apply_qty` above the quantity;
- `Order::new` and `Plant::from` called alone.

The regular expressions are modelled by hand, with Rust's leftmost-first
semantics. The leftmost start wins. At that start, the greedy `.*` of the
cost-center pattern takes the longest span that contains no '\n'. `\d` is an
ASCII digit.

In several places the code differs from what a reader of its names and comments would expect. The model follows the code:

- **Repeated header names.** While the header is still incomplete, a later cell that names a column already seen replaces the
  earlier index (`FoldLaterWins`). The scan stops right after the cell that
  completes the header (`ScanStopsAtFirstComplete`, `ScanIgnoresLaterCells`).
  So a design in which the first occurrence of a name wins is not what the code does.
- **Header wording.** Only the wordings in `match_header_column` are recognised. A header worded
  "Target qty" and "Material" leaves material and quantity unmatched, and the
  read fails (`OtherWordingIsMissing`). The example row parses only once the
  header matches and the quantity is a float cell (`ExampleRowParses`).
- **Missing cells.** A row too short for a matched column, or a column absent from the map,
  panics at the indexing. It is not a row error.
- **WBS conversions.** `into_hd_wbs` on no WBS returns no WBS; it does not fail. `set_id` takes the
  value by move, assigns the id of the moved value and returns nothing. So no value the caller can
  still see changes.
- **The two trait names.** excel.rs declares the strategy trait as `Header`. cohv.rs implements
  a trait `HeaderColumn`, which also has `column_name`. Both are modelled as the
  one `Schema` record.

## Model

| member | source | states |
|---|---|---|
| ApiWbs.CostCenterSearch | src/api/wbs.rs:8 | the reported cost-center match is the leftmost one; at that start no longer `.*` matches; None means no match anywhere |
| ApiWbs.FirstAt | src/api/wbs.rs:9-10 | the reported HD or legacy match is the leftmost one; None means none anywhere |
| ApiWbs.CostCenterDigits | src/api/wbs.rs:8 | the group `2\d{3}` denotes a number from 2000 to 2999 |
| ApiWbs.Parse | src/api/wbs.rs:99-134 | "" and only "" is no WBS. Otherwise the text is a cost center iff the cost-center pattern occurs, HD iff HD occurs and cost center does not, and legacy iff only legacy occurs. No match is the error carrying the text. Every result has the widths the patterns require |
| ApiWbs.ParseTakesChosenCostCenter | src/api/wbs.rs:107-112 | the cost-center value is the four digits of the leftmost, longest match |
| ApiWbs.ParseTakesChosenHd | src/api/wbs.rs:114-120 | an HD value holds the job and id groups of the leftmost HD match |
| ApiWbs.ParseTakesChosenLegacy | src/api/wbs.rs:122-128 | a legacy value holds the job and shipment groups of the leftmost legacy match |
| ApiWbs.CostCenterBeforeLegacy | src/api/wbs.rs:107-128 | "S-1234567-2-2027" matches the legacy pattern, yet parses as cost center 2027 because that pattern is tried first |
| ApiWbs.LegacyExample | src/api/wbs.rs:122-128 | "S-1234567-2-03" parses as legacy job 1234567, shipment 3 |
| ApiWbs.HdExample | src/api/wbs.rs:114-120 | "D-1234567-00042" parses as HD job 1234567, id 42 |
| ApiWbs.Format | src/api/wbs.rs:148-157 | Display is empty iff there is no WBS. A cost center prints as its number in plain decimal. HD prints as `D-job-id` and legacy as `S-job-shipment`. Each number is printed in plain decimal: its digits read back as the number, with no leading zero unless the number is 0 |
| ApiWbs.HdRoundTrip | src/api/wbs.rs:152 | an HD value with a 7-digit job and a 5-digit id parses back from its Display, which for such an id is the padded Display |
| ApiWbs.HdDisplayExample | src/api/wbs.rs:152 | HD 1234567/42 displays as "D-1234567-42" |
| ApiWbs.LegacyDisplayExample | src/api/wbs.rs:153 | legacy 1234567/3 displays as "S-1234567-3" |
| ApiWbs.CostCenterDisplayExample | src/api/wbs.rs:151 | cost center 2027 displays as "2027" |
| ApiWbs.CostCenterDisplayDoesNotParse | src/api/wbs.rs:151 | for every cost center, the bare number it displays as does not parse back |
| ApiWbs.LegacyDisplayDoesNotParse | src/api/wbs.rs:153 | for every legacy value with a 7-digit job, its Display text does not parse back |
| ApiWbs.ShortHdDisplayDoesNotParse | src/api/wbs.rs:152 | for every HD value with a 7-digit job and an id below 10000, its Display text does not parse back |
| ApiWbs.ZeroPadded | src/api/wbs.rs:21 | `{:0w}` text denotes the number and has width w when the number fits |
| ApiWbs.FormatPadded | src/api/wbs.rs:21 | the padded Display is empty iff there is no WBS |
| ApiWbs.PaddedHdRoundTrip | src/api/wbs.rs:9 | every HD value the parser can produce parses back from the padded Display |
| ApiWbs.PaddedLegacyRoundTrip | src/api/wbs.rs:21 | every legacy value the parser can produce parses back from `S-{job}-2-{shipment:02}` |
| ApiWbs.IntoHd | src/api/wbs.rs:38-47 | an HD is kept, legacy becomes HD with its job and the new id, no WBS stays none; the shapes stay valid |
| ApiWbs.IntoHdIdempotent | src/api/wbs.rs:38-47 | converting twice is converting once |
| ApiWbs.SetId | src/api/wbs.rs:27-35 | requires an HD value; the assignment is lost with the moved value, so what the caller sees is the value unchanged |
| Numerals.NatToStringValue | src/api/wbs.rs:151 | the decimal text of a number reads back as that number |
| Numerals.NatToStringDecimal | src/api/wbs.rs:151 | `{}` prints a number as plain decimal text: its digits denote it, with no leading zero unless it is 0 |
| Numerals.NatToStringPadded | src/api/wbs.rs:152 | a number of exactly w digits prints the same as its w-digit zero-padded text |
| Numerals.NatToStringWithin | src/api/wbs.rs:152 | a number below 10^w prints in at most w digits |
| Numerals.ParseU32 | src/excel/cohv.rs:70 | `parse::<u32>` succeeds only on ASCII digits, or on '+' followed by ASCII digits. On such a text it succeeds iff the digits' value is below 2^32, and then gives that value, so leading zeros are accepted |
| Numerals.ParseU32RoundTrip | src/excel/cohv.rs:70 | every u32 printed in decimal parses back to itself |
| ApiPlant.Code | src/api/plant.rs:2-10 | each plant's serde name is a plant code |
| ApiPlant.FromCode | src/api/plant.rs:18-25 | a known code converts to the plant whose code it is |
| ApiPlant.CodeRoundTrip | src/api/plant.rs:18-25 | code then conversion is the identity on plants |
| ApiOrder.New | src/api/order.rs:11-17 | the data is kept; PP01 gives a production order, PR a planned one |
| ApiOrder.QtyApplied | src/api/order.rs:30-36 | the quantity drops by exactly q and the other fields are unchanged |
| ApiOrder.ApplyQtyTwice | src/api/order.rs:30-36 | applying a then b is applying a + b |
| ApiOrder.OrderRecord.constructor | src/api/order.rs:20-27 | the record holds the given order data |
| ApiOrder.OrderRecord.ApplyQty | src/api/order.rs:30-36 | the record's new value is the old value with q applied |
| ExcelTable.Absorb | src/excel/excel.rs:38-40 | a header text adds its column, and nothing else changes which columns are present |
| ExcelTable.ScanStep | src/excel/excel.rs:37-46 | a text cell that leaves the header incomplete is absorbed and the scan goes on |
| ExcelTable.ScanResumes | src/excel/excel.rs:37-46 | while no prefix completes the header, the scan equals the plain fold so far |
| ExcelTable.ScanStopsAtFirstComplete | src/excel/excel.rs:42-46 | the scan ends with the map of the first prefix that completes the header |
| ExcelTable.ScanReadsToEnd | src/excel/excel.rs:37-47 | a header never completed is read to its end |
| ExcelTable.ScanPanics | src/excel/excel.rs:38 | a non-text cell reached before completion panics |
| ExcelTable.FoldPrefix | src/excel/excel.rs:37-40 | the map after n cells depends only on those n cells |
| ExcelTable.ScanIgnoresLaterCells | src/excel/excel.rs:42-46 | cells after the completing cell never affect the map |
| ExcelTable.FoldLaterWins | src/excel/excel.rs:38-40 | of several cells naming a column, the last one scanned gives its index |
| ExcelTable.FoldKeepsUnnamed | src/excel/excel.rs:38-40 | a column no scanned cell names keeps its earlier entry |
| ExcelTable.ScanSound | src/excel/excel.rs:36-48 | entries are never removed; each entry is an earlier one or a cell naming that column |
| ExcelTable.ScanFromEmptySound | src/excel/excel.rs:36-48 | from an empty map every entry points at a cell naming its column |
| ExcelTable.Missing | src/excel/excel.rs:63-67 | exactly the required columns without an index |
| ExcelTable.MissingEmptyIffComplete | src/excel/excel.rs:50-67 | nothing is missing iff every required column has an index |
| ExcelTable.MissingConcat | src/excel/excel.rs:63-67 | the missing columns keep their listed order |
| ExcelTable.ParseAll | src/excel/excel.rs:89-92 | one result per row, in order, unless a row parser panics |
| ExcelTable.ParseAllConcat | src/excel/excel.rs:89-92 | a row's result does not depend on the other rows |
| ExcelTable.ReadSpec | src/excel/excel.rs:70-97 | open failure iff no file. No sheet or no row panics, and so does a header scan that panics. An incomplete header gives exactly the error listing the missing columns, which is non-empty. With a complete header the read panics iff some data row panics, and otherwise succeeds, with each data row's result in order |
| ExcelTable.IncompleteHeaderIgnoresRows | src/excel/excel.rs:81-87 | an incomplete header fails the read naming its missing columns, whatever the data rows and the other sheets are |
| ExcelTable.CompleteHeaderReadsRows | src/excel/excel.rs:89-94 | with a complete header and no panicking row, the read is the rows' results in order, whatever the other sheets are |
| ExcelTable.TableReader.constructor | src/excel/excel.rs:28-32 | a new reader knows no column |
| ExcelTable.TableReader.ParseHeader | src/excel/excel.rs:36-48 | the loop panics iff the scan does, and otherwise leaves the scan's map |
| ExcelTable.TableReader.MissingColumns | src/excel/excel.rs:63-67 | exactly the required columns not in the map |
| ExcelTable.TableReader.IsHeaderMatched | src/excel/excel.rs:50-61 | true iff some required column is missing |
| ExcelTable.TableReader.ReadFile | src/excel/excel.rs:70-97 | the result is the read specification from the old map. The map becomes the header scan's result, and is unchanged when the file does not open |
| ExcelCohv.ColumnsToMatch | src/excel/cohv.rs:41-50 | six columns, every column, each once |
| ExcelCohv.MatchHeaderColumn | src/excel/cohv.rs:52-64 | a text matches exactly when it is a column's export text, and names that column |
| ExcelCohv.HeaderTextsDistinct | src/excel/cohv.rs:55-63 | distinct columns have distinct texts, and each text matches its own column |
| ExcelCohv.ColumnNameMatches | src/excel/cohv.rs:28-39 | a display name is recognised as a header except for Material and Qty |
| ExcelCohv.CellAt | src/excel/cohv.rs:70 | indexing panics iff the column has no index or the index is past the row's end, and otherwise gives the cell at the index |
| ExcelCohv.TextField | src/excel/cohv.rs:72 | panics iff the cell is absent; Ok iff it is text, with that text; an error names the column |
| ExcelCohv.OrderIdField | src/excel/cohv.rs:70 | panics iff the cell is absent; Ok iff it is text that is a u32, with that value |
| ExcelCohv.QtyField | src/excel/cohv.rs:73 | panics iff the cell is absent; Ok iff it is a float cell, with its cast value |
| ExcelCohv.WbsField | src/excel/cohv.rs:74 | panics iff the cell is absent; Ok iff it is text that classifies, with that WBS |
| ExcelCohv.ParseRowError | src/excel/cohv.rs:66-81 | a row error names the first column, in reading order, whose cell is present but unreadable |
| ExcelCohv.ParseRowPanics | src/excel/cohv.rs:66-81 | a panic comes from an absent cell reached before any error, or from an unknown plant or order type |
| ExcelCohv.ParseRowOkReads | src/excel/cohv.rs:66-81 | a parsed row had every column readable and convertible |
| ExcelCohv.ParseRowOk | src/excel/cohv.rs:66-81 | a fully readable, convertible row parses into the order its cells denote |
| ExcelCohv.OtherWordingMatches | src/excel/cohv.rs:55-63 | "Target qty" and "Material" match no column; the other four texts do |
| ExcelCohv.ScanOverCell | src/excel/excel.rs:37-46 | one matched or unmatched header cell is absorbed while material is missing |
| ExcelCohv.OtherWordingScan | src/excel/excel.rs:36-48 | that header maps WBS, order, plant and type, and is read to its end |
| ExcelCohv.OtherWordingMissingColumns | src/excel/excel.rs:63-67 | that header leaves material and quantity missing, in that order |
| ExcelCohv.OtherWordingIsMissing | src/excel/excel.rs:81-87 | a file whose first sheet has that header fails naming material and quantity |
| ExcelCohv.ExampleRowReads | src/excel/cohv.rs:70-80 | the example cells read and denote production order 900100 |
| ExcelCohv.ExampleRowParses | src/excel/cohv.rs:66-81 | the example row parses into production order 900100, HD 1234567/42, Lancaster, quantity 12 |
| ExcelCohv.KeepOk | src/excel/cohv.rs:90 | exactly the orders of the rows that parsed |
| ExcelCohv.KeepOkConcat | src/excel/cohv.rs:88-91 | the kept orders keep their row order |
| ExcelCohv.KeepOkOutcome | src/excel/cohv.rs:88-93 | panics and read errors pass through; success keeps the parsed rows |
| ExcelCohv.ParseCohvXl | src/excel/cohv.rs:85-94 | the result is the read of the file by a fresh reader, keeping only the rows that parsed |

## Left out

- Opening the workbook (`open_workbook`) and calamine's cell types are file I/O. The file is an input, None when it does not open. A cell is text, a float, an integer or empty.
- ExcelTable.Cell: the float-to-`u32` cast is floating point and is not modelled. A `Float` cell carries the value `as u32` yields, with saturation and NaN already applied.
- ApiWbs.Parse: the patterns' `\d` is modelled as an ASCII digit, while Rust's matches any Unicode decimal digit. So the classification itself differs on non-ASCII digits. A job group of such digits is kept as text, without being parsed: Rust gives `Ok(Hd{job: "١٢٣٤٥٦٧", id: 42})` for "D-١٢٣٤٥٦٧-00042", and the model gives the parse error. In a number group, such digits would make the capture's `.parse().unwrap()` panic; the model does not capture that panic either.
- Error message texts, including the comma-joined list of missing columns, are left out. The model keeps the error kind and the missing columns.
- `Serialize`/`Deserialize` and `Debug` for `Wbs` and `Plant` are formatting glue. Deserialisation is `Parse`, and the serde name of a plant is `Code`.
- `From<String>` and `From<Match>` for `Wbs` only unwrap `Parse`. `From<String>` for `Plant` equals `FromCode`. The commented-out `From<&str>` for `Wbs` is not code.
- ApiOrder.OrderRecord: `apply_qty` is also given as the pure `QtyApplied`, because the row parser builds order data by value. The class covers the in-place update.
- ExcelTable.TableReader.ParseHeader: after a panic the map is left as the loop had it. Nothing can observe it, because the process has panicked.
- The database layer, logging and the program's entry point are not part of this model.

## Findings

| source | as written | input that shows it | evidently intended | confidence | as-written member | corrected member |
|---|---|---|---|---|---|---|
| src/api/wbs.rs:153 | legacy Display writes `S-{job}-{shipment}` | Legacy("1234567", 3) displays as "S-1234567-3", which the parser rejects | `S-{job}-2-{shipment:02}`, as the doc comment at wbs.rs:21 says, so the serde round trip holds | not executed | ApiWbs.LegacyDisplayDoesNotParse | ApiWbs.PaddedLegacyRoundTrip |
| src/api/wbs.rs:152 | HD Display writes the id unpadded | Hd("1234567", 42) displays as "D-1234567-42", which the parser rejects | the id as `{:05}`, the five digits the HD pattern requires | not executed | ApiWbs.ShortHdDisplayDoesNotParse | ApiWbs.PaddedHdRoundTrip |

A cost center displaying as a bare number that does not parse back
(`CostCenterDisplayDoesNotParse`) is the documented behaviour. It is not a finding.
