/** The table schema of an export of SAP transaction COHV (src/excel/cohv.rs):
    its six columns, the header texts that name them, and the row parser that
    turns one data row into an order. */
module ExcelCohv {
  import opened Wrappers
  import opened Numerals
  import opened ExcelTable
  import ApiWbs
  import ApiPlant
  import ApiOrder

  /** The columns a COHV export must have. */
  datatype CohvHeader = Order | Matl | Qty | Wbs | Type | Plant

  /** `column_name`: the display name of each column. */
  function ColumnName(c: CohvHeader): string {
    match c
    case Order => "Order"
    case Matl => "Material"
    case Qty => "Qty"
    case Wbs => "WBS Element"
    case Type => "Order Type"
    case Plant => "Plant"
  }

  /** `columns_to_match`: every column, each once. */
  function ColumnsToMatch(): (cols: seq<CohvHeader>)
    ensures |cols| == 6
    ensures forall c: CohvHeader :: c in cols
    ensures forall i, j :: 0 <= i < j < |cols| ==> cols[i] != cols[j]
  {
    var cols := [CohvHeader.Order, Matl, Qty, CohvHeader.Wbs, Type, CohvHeader.Plant];
    assert forall c: CohvHeader :: c in cols by {
      forall c: CohvHeader ensures c in cols {
        if c.Order? { assert cols[0] == c; }
        else if c.Matl? { assert cols[1] == c; }
        else if c.Qty? { assert cols[2] == c; }
        else if c.Wbs? { assert cols[3] == c; }
        else if c.Type? { assert cols[4] == c; }
        else { assert cols[5] == c; }
      }
    }
    cols
  }

  /** The one header text that names each column in an export. */
  function HeaderText(c: CohvHeader): string {
    match c
    case Order => "Order"
    case Matl => "Material Number"
    case Qty => "Order quantity (GMEIN)"
    case Wbs => "WBS Element"
    case Type => "Order Type"
    case Plant => "Plant"
  }

  /** `match_header_column`: exact comparison against the six export texts. */
  function MatchHeaderColumn(text: string): (r: Option<CohvHeader>)
    ensures r.Some? ==> text == HeaderText(r.value)
    ensures r.None? <==> forall c: CohvHeader :: text != HeaderText(c)
  {
    match text
    case "Order" => Some(CohvHeader.Order)
    case "Material Number" => Some(Matl)
    case "Order quantity (GMEIN)" => Some(Qty)
    case "WBS Element" => Some(CohvHeader.Wbs)
    case "Order Type" => Some(Type)
    case "Plant" => Some(CohvHeader.Plant)
    case _ => None
  }

  /** Distinct columns are named by distinct header texts, so each text
      names at most one column and the match is exact in both directions. */
  lemma HeaderTextsDistinct(c: CohvHeader, d: CohvHeader)
    ensures HeaderText(c) == HeaderText(d) <==> c == d
    ensures MatchHeaderColumn(HeaderText(c)) == Some(c)
  {
  }

  /** A column's display name is its header text except for material and
      quantity, whose display names an export header does not use. */
  lemma ColumnNameMatches(c: CohvHeader)
    ensures MatchHeaderColumn(ColumnName(c)) == if c == Matl || c == Qty then None else Some(c)
  {
    if c == Matl {
      assert forall d: CohvHeader :: ColumnName(c) != HeaderText(d) by {
        assert ColumnName(c)[..8] == "Material";
        assert "Material Number"[8] == ' ';
      }
    }
  }

  /** The row errors a caller gets back, one per failing `ok_or` or `?`. */
  datatype CohvError =
    | OrderNotText
    | OrderNotNumber(text: string)
    | MatlNotText
    | QtyNotFloat
    | WbsNotText
    | WbsInvalid(cause: ApiWbs.WbsError)
    | TypeNotText
    | PlantNotText

  /** `row[*header.get(&c).unwrap()]`: a column without an index, or an
      index past the end of the row, panics. */
  function CellAt(header: map<CohvHeader, nat>, row: seq<Cell>, c: CohvHeader): (r: Outcome<Cell, CohvError>)
    ensures r.Panics? <==> !(c in header && header[c] < |row|)
    ensures r.Returns? ==> r.result == Ok(row[header[c]])
  {
    match Lookup(header, row, c)
    case None => Panics
    case Some(cell) => Returns(Ok(cell))
  }

  /** `row[..].get_string().ok_or(e)?` for a text column c. */
  function TextField(header: map<CohvHeader, nat>, row: seq<Cell>, c: CohvHeader, e: CohvError): (r: Outcome<string, CohvError>)
    requires c != Qty && c != CohvHeader.Order && c != CohvHeader.Wbs && ErrorColumn(e) == c
    ensures r.Panics? <==> Lookup(header, row, c).None?
    ensures r.Returns? ==> (r.result.Ok? <==> FieldReads(header, row, c))
    ensures r.Returns? && r.result.Err? ==> ErrorColumn(r.result.error) == c
    ensures r.Returns? && r.result.Ok? ==> r.result.value == TextIn(header, row, c)
  {
    var cell :- CellAt(header, row, c);
    if cell.Str? then Returns(Ok(cell.text)) else Returns(Err(e))
  }

  /** `get_string().ok_or(..)?.parse()?` of the order number as a `u32`. */
  function OrderIdField(header: map<CohvHeader, nat>, row: seq<Cell>): (r: Outcome<U32, CohvError>)
    ensures r.Panics? <==> Lookup(header, row, CohvHeader.Order).None?
    ensures r.Returns? ==> (r.result.Ok? <==> FieldReads(header, row, CohvHeader.Order))
    ensures r.Returns? && r.result.Err? ==> ErrorColumn(r.result.error) == CohvHeader.Order
    ensures r.Returns? && r.result.Ok? ==> Some(r.result.value) == ParseU32(TextIn(header, row, CohvHeader.Order))
  {
    var cell :- CellAt(header, row, CohvHeader.Order);
    if !cell.Str? then Returns(Err(OrderNotText))
    else
      match ParseU32(cell.text)
      case Some(id) => Returns(Ok(id))
      case None => Returns(Err(OrderNotNumber(cell.text)))
  }

  /** `get_float().ok_or(..)? as u32` of the quantity. */
  function QtyField(header: map<CohvHeader, nat>, row: seq<Cell>): (r: Outcome<U32, CohvError>)
    ensures r.Panics? <==> Lookup(header, row, Qty).None?
    ensures r.Returns? ==> (r.result.Ok? <==> FieldReads(header, row, Qty))
    ensures r.Returns? && r.result.Err? ==> ErrorColumn(r.result.error) == Qty
    ensures r.Returns? && r.result.Ok? ==> r.result.value == Lookup(header, row, Qty).value.asU32
  {
    var cell :- CellAt(header, row, Qty);
    if cell.Float? then Returns(Ok(cell.asU32)) else Returns(Err(QtyNotFloat))
  }

  /** `get_string().ok_or(..)?.try_into()?` of the WBS element. */
  function WbsField(header: map<CohvHeader, nat>, row: seq<Cell>): (r: Outcome<ApiWbs.Wbs, CohvError>)
    ensures r.Panics? <==> Lookup(header, row, CohvHeader.Wbs).None?
    ensures r.Returns? ==> (r.result.Ok? <==> FieldReads(header, row, CohvHeader.Wbs))
    ensures r.Returns? && r.result.Err? ==> ErrorColumn(r.result.error) == CohvHeader.Wbs
    ensures r.Returns? && r.result.Ok? ==> Ok(r.result.value) == ApiWbs.Parse(TextIn(header, row, CohvHeader.Wbs))
  {
    var cell :- CellAt(header, row, CohvHeader.Wbs);
    if !cell.Str? then Returns(Err(WbsNotText))
    else
      match ApiWbs.Parse(cell.text)
      case Ok(w) => Returns(Ok(w))
      case Err(e) => Returns(Err(WbsInvalid(e)))
  }

  /** `parse_row`: the six cells are read in column order; the first one of
      the wrong type, an order number that is not a `u32` or a WBS that does
      not classify is the row's error. The plant code and the order type
      are then converted, and either panics when unknown. */
  function ParseRow(header: map<CohvHeader, nat>, row: seq<Cell>): Outcome<ApiOrder.Order, CohvError>
  {
    var id :- OrderIdField(header, row);
    var mark :- TextField(header, row, Matl, MatlNotText);
    var qty :- QtyField(header, row);
    var wbs :- WbsField(header, row);
    var orderType :- TextField(header, row, Type, TypeNotText);
    var plantText :- TextField(header, row, CohvHeader.Plant, PlantNotText);
    if !ApiPlant.IsCode(plantText) || !ApiOrder.IsOrderType(orderType) then Panics
    else Returns(Ok(ApiOrder.New(orderType, ApiOrder.OrderData(id, mark, qty, wbs, ApiPlant.FromCode(plantText)))))
  }

  // ---------------------------------------------------------------------
  // What the row parser's contract is stated in.
  // ---------------------------------------------------------------------

  /** The cell column c's index points at, when it is inside the row. */
  function Lookup(header: map<CohvHeader, nat>, row: seq<Cell>, c: CohvHeader): Option<Cell> {
    if c in header && header[c] < |row| then Some(row[header[c]]) else None
  }

  /** Column c's cell is there, has the type it is read as, and converts:
      the quantity is a float; the rest are text; the order text is a `u32`
      and the WBS text classifies. */
  predicate FieldReads(header: map<CohvHeader, nat>, row: seq<Cell>, c: CohvHeader) {
    match Lookup(header, row, c)
    case None => false
    case Some(cell) =>
      match c
      case Qty => cell.Float?
      case Order => cell.Str? && ParseU32(cell.text).Some?
      case Wbs => cell.Str? && ApiWbs.Parse(cell.text).Ok?
      case _ => cell.Str?
  }

  /** Every column read before c reads. */
  predicate ReadsBefore(header: map<CohvHeader, nat>, row: seq<Cell>, c: CohvHeader) {
    var order := FieldReads(header, row, CohvHeader.Order);
    var matl := FieldReads(header, row, Matl);
    var qty := FieldReads(header, row, Qty);
    var wbs := FieldReads(header, row, CohvHeader.Wbs);
    var orderType := FieldReads(header, row, Type);
    match c
    case Order => true
    case Matl => order
    case Qty => order && matl
    case Wbs => order && matl && qty
    case Type => order && matl && qty && wbs
    case Plant => order && matl && qty && wbs && orderType
  }

  predicate AllRead(header: map<CohvHeader, nat>, row: seq<Cell>) {
    ReadsBefore(header, row, CohvHeader.Plant) && FieldReads(header, row, CohvHeader.Plant)
  }

  /** The text of a column whose cell is text. */
  function TextIn(header: map<CohvHeader, nat>, row: seq<Cell>, c: CohvHeader): string
    requires Lookup(header, row, c).Some? && Lookup(header, row, c).value.Str?
  {
    Lookup(header, row, c).value.text
  }

  /** The plant code and the order type are ones the domain knows. */
  predicate Convertible(header: map<CohvHeader, nat>, row: seq<Cell>)
    requires AllRead(header, row)
  {
    ApiPlant.IsCode(TextIn(header, row, CohvHeader.Plant)) && ApiOrder.IsOrderType(TextIn(header, row, Type))
  }

  /** The order a fully readable row denotes, each field from its column. */
  function Expected(header: map<CohvHeader, nat>, row: seq<Cell>): ApiOrder.Order
    requires AllRead(header, row) && Convertible(header, row)
  {
    ApiOrder.New(
      TextIn(header, row, Type),
      ApiOrder.OrderData(
        ParseU32(TextIn(header, row, CohvHeader.Order)).value,
        TextIn(header, row, Matl),
        Lookup(header, row, Qty).value.asU32,
        ApiWbs.Parse(TextIn(header, row, CohvHeader.Wbs)).value,
        ApiPlant.FromCode(TextIn(header, row, CohvHeader.Plant))))
  }

  /** The column whose cell an error is about. */
  function ErrorColumn(e: CohvError): CohvHeader {
    match e
    case OrderNotText => CohvHeader.Order
    case OrderNotNumber(_) => CohvHeader.Order
    case MatlNotText => Matl
    case QtyNotFloat => Qty
    case WbsNotText => CohvHeader.Wbs
    case WbsInvalid(_) => CohvHeader.Wbs
    case TypeNotText => Type
    case PlantNotText => CohvHeader.Plant
  }

  /** A row error names the first column, in reading order, whose cell is
      there but has the wrong type or does not convert. */
  lemma ParseRowError(header: map<CohvHeader, nat>, row: seq<Cell>)
    ensures var r := ParseRow(header, row);
      r.Returns? && r.result.Err? ==>
        var c := ErrorColumn(r.result.error);
        ReadsBefore(header, row, c) && Lookup(header, row, c).Some? && !FieldReads(header, row, c)
  {
  }

  /** A row panics on a column with no cell, reached before any error, or on
      an unknown plant code or order type in an otherwise readable row. */
  lemma ParseRowPanics(header: map<CohvHeader, nat>, row: seq<Cell>)
    ensures ParseRow(header, row).Panics? ==>
      (exists c: CohvHeader :: ReadsBefore(header, row, c) && Lookup(header, row, c).None?)
      || (AllRead(header, row) && !Convertible(header, row))
  {
  }

  /** A row that parses had every column read and converted. */
  lemma ParseRowOkReads(header: map<CohvHeader, nat>, row: seq<Cell>)
    ensures ParseRow(header, row).Returns? && ParseRow(header, row).result.Ok? ==>
      AllRead(header, row) && Convertible(header, row)
  {
    var r := ParseRow(header, row);
    if r.Returns? && r.result.Ok? {
      assert FieldReads(header, row, CohvHeader.Order);
      assert FieldReads(header, row, Matl);
      assert FieldReads(header, row, Qty);
      assert FieldReads(header, row, CohvHeader.Wbs);
      assert FieldReads(header, row, Type);
      assert FieldReads(header, row, CohvHeader.Plant);
    }
  }

  /** A row whose columns all read and convert parses into the order its
      cells denote. */
  lemma ParseRowOk(header: map<CohvHeader, nat>, row: seq<Cell>)
    requires AllRead(header, row) && Convertible(header, row)
    ensures ParseRow(header, row) == Returns(Ok(Expected(header, row)))
  {
  }

  /** How each text of a header worded "Target qty" and "Material" matches. */
  lemma OtherWordingMatches()
    ensures MatchHeaderColumn("WBS Element") == Some(CohvHeader.Wbs)
    ensures MatchHeaderColumn("Order") == Some(CohvHeader.Order)
    ensures MatchHeaderColumn("Plant") == Some(CohvHeader.Plant)
    ensures MatchHeaderColumn("Target qty").None?
    ensures MatchHeaderColumn("Material").None?
    ensures MatchHeaderColumn("Order Type") == Some(Type)
  {
    ColumnNameMatches(Matl);
  }

  /** One header cell scanned while material is still unmatched. */
  lemma {:induction false} ScanOverCell(header: seq<Cell>, m: map<CohvHeader, nat>, i: nat, h: Option<CohvHeader>)
    requires i < |header| && header[i].Str? && MatchHeaderColumn(header[i].text) == h
    requires Matl !in m && h != Some(Matl)
    ensures Scan(CohvSchema(), m, header, i)
      == Scan(CohvSchema(), if h.Some? then m[h.value := i] else m, header, i + 1)
  {
    assert ColumnsToMatch()[1] == Matl;
    ScanStep(CohvSchema(), m, header, i);
  }

  /** Such a header matches four columns, and is read to its end. */
  lemma {:induction false} OtherWordingScan(header: seq<Cell>)
    requires |header| == 6
    requires header[0] == Str("WBS Element") && header[1] == Str("Order") && header[2] == Str("Plant")
    requires header[3] == Str("Target qty") && header[4] == Str("Material") && header[5] == Str("Order Type")
    ensures Scan(CohvSchema(), map[], header, 0)
      == Some(map[CohvHeader.Wbs := 0, CohvHeader.Order := 1, CohvHeader.Plant := 2, Type := 5])
  {
    OtherWordingMatches();
    var m1 := map[CohvHeader.Wbs := 0];
    var m2 := m1[CohvHeader.Order := 1];
    var m3 := m2[CohvHeader.Plant := 2];
    ScanOverCell(header, map[], 0, Some(CohvHeader.Wbs));
    ScanOverCell(header, m1, 1, Some(CohvHeader.Order));
    ScanOverCell(header, m2, 2, Some(CohvHeader.Plant));
    ScanOverCell(header, m3, 3, None);
    ScanOverCell(header, m3, 4, None);
    ScanOverCell(header, m3, 5, Some(Type));
  }

  /** The read of a file with such a header fails naming material and
      quantity, in column order, and no data row is parsed. */
  lemma {:induction false} OtherWordingIsMissing(header: seq<Cell>, rows: seq<seq<Cell>>, others: seq<Sheet>)
    requires header == [Str("WBS Element"), Str("Order"), Str("Plant"), Str("Target qty"), Str("Material"), Str("Order Type")]
    ensures ReadSpec(CohvSchema(), map[], Some([[header] + rows] + others)) == Returns(Err(NotAllMatched([Matl, Qty])))
  {
    var m := map[CohvHeader.Wbs := 0, CohvHeader.Order := 1, CohvHeader.Plant := 2, Type := 5];
    OtherWordingScan(header);
    OtherWordingMissingColumns(m);
    MissingEmptyIffComplete(ColumnsToMatch(), m);
    IncompleteHeaderIgnoresRows(CohvSchema(), map[], header, rows, others);
  }

  /** The columns that header leaves without an index. */
  lemma {:induction false} OtherWordingMissingColumns(m: map<CohvHeader, nat>)
    requires m == map[CohvHeader.Wbs := 0, CohvHeader.Order := 1, CohvHeader.Plant := 2, Type := 5]
    ensures Missing(ColumnsToMatch(), m) == [Matl, Qty]
  {
    var cols := ColumnsToMatch();
    var front, back := [CohvHeader.Order, Matl, Qty], [CohvHeader.Wbs, Type, CohvHeader.Plant];
    assert cols == front + back;
    MissingEmptyIffComplete(back, m);
    assert Missing(back, m) == [];
    assert CohvHeader.Order in m && Matl !in m && Qty !in m;
    assert Missing([Qty], m) == [Qty] by {
      assert [Qty][1..] == [];
    }
    assert Missing([Matl, Qty], m) == [Matl, Qty] by {
      assert [Matl, Qty][1..] == [Qty];
    }
    assert Missing(front, m) == [Matl, Qty] by {
      assert front[1..] == [Matl, Qty];
    }
    MissingConcat(front, back, m);
  }

  /** The order number of the example row. */
  lemma {:induction false} OrderNumber900100(t: string)
    requires t == "900100"
    ensures ParseU32(t) == Some(900100)
  {
    var d1, d2, d3, d4, d5 := t[..1], t[..2], t[..3], t[..4], t[..5];
    assert d5[..4] == d4 && d4[..3] == d3 && d3[..2] == d2 && d2[..1] == d1 && d1[..0] == [];
    assert DigitsValue(d1) == 9;
    assert DigitsValue(d2) == 90;
    assert DigitsValue(d3) == 900;
    assert DigitsValue(d4) == 9001;
    assert DigitsValue(d5) == 90010;
    assert DigitsValue(t) == 900100;
  }

  /** Where each column of the example row is found. */
  lemma {:induction false} ExampleRowLookups(header: map<CohvHeader, nat>, row: seq<Cell>)
    requires header == map[CohvHeader.Wbs := 0, CohvHeader.Order := 1, CohvHeader.Plant := 2, Qty := 3, Matl := 4, Type := 5]
    requires |row| == 6
    ensures Lookup(header, row, CohvHeader.Wbs) == Some(row[0])
    ensures Lookup(header, row, CohvHeader.Order) == Some(row[1])
    ensures Lookup(header, row, CohvHeader.Plant) == Some(row[2])
    ensures Lookup(header, row, Qty) == Some(row[3])
    ensures Lookup(header, row, Matl) == Some(row[4])
    ensures Lookup(header, row, Type) == Some(row[5])
  {
  }

  /** Every column of the example row reads and converts. */
  lemma {:induction false} ExampleRowReads(header: map<CohvHeader, nat>, row: seq<Cell>)
    requires Lookup(header, row, CohvHeader.Wbs) == Some(Str("D-1234567-00042"))
    requires Lookup(header, row, CohvHeader.Order) == Some(Str("900100"))
    requires Lookup(header, row, CohvHeader.Plant) == Some(Str("HS01"))
    requires Lookup(header, row, Qty) == Some(Float(12))
    requires Lookup(header, row, Matl) == Some(Str("BRKT-100"))
    requires Lookup(header, row, Type) == Some(Str("PP01"))
    ensures AllRead(header, row) && Convertible(header, row)
    ensures Expected(header, row)
      == ApiOrder.ProductionOrder(ApiOrder.OrderData(900100, "BRKT-100", 12, ApiWbs.Hd("1234567", 42), ApiPlant.Lancaster))
  {
    OrderNumber900100(TextIn(header, row, CohvHeader.Order));
    ApiWbs.HdExample(TextIn(header, row, CohvHeader.Wbs));
    assert FieldReads(header, row, CohvHeader.Order);
    assert FieldReads(header, row, CohvHeader.Wbs);
  }

  /** A data row under a matched header becomes the production order its
      cells describe: an HD element, plant HS01, the float quantity. */
  lemma {:induction false} ExampleRowParses(header: map<CohvHeader, nat>, row: seq<Cell>)
    requires header == map[CohvHeader.Wbs := 0, CohvHeader.Order := 1, CohvHeader.Plant := 2, Qty := 3, Matl := 4, Type := 5]
    requires |row| == 6 && row[0] == Str("D-1234567-00042") && row[1] == Str("900100") && row[2] == Str("HS01")
    requires row[3] == Float(12) && row[4] == Str("BRKT-100") && row[5] == Str("PP01")
    ensures ParseRow(header, row)
      == Returns(Ok(ApiOrder.ProductionOrder(ApiOrder.OrderData(900100, "BRKT-100", 12, ApiWbs.Hd("1234567", 42), ApiPlant.Lancaster))))
  {
    ExampleRowLookups(header, row);
    ExampleRowReads(header, row);
    ParseRowOk(header, row);
  }

  // ---------------------------------------------------------------------
  // The whole export.
  // ---------------------------------------------------------------------

  /** The COHV strategy handed to the generic reader. */
  function CohvSchema(): Schema<CohvHeader, ApiOrder.Order, CohvError> {
    Schema(MatchHeaderColumn, ColumnsToMatch(), ColumnName, ParseRow)
  }

  /** `filter_map(|r| r.ok())`: the orders of the rows that parsed. */
  function KeepOk(rs: seq<Result<ApiOrder.Order, CohvError>>): (r: seq<ApiOrder.Order>)
    ensures forall o :: o in r <==> exists j :: 0 <= j < |rs| && rs[j] == Ok(o)
    ensures |r| <= |rs|
  {
    if |rs| == 0 then []
    else
      var rest := KeepOk(rs[1..]);
      assert forall j :: 1 <= j < |rs| ==> rs[1..][j - 1] == rs[j];
      (if rs[0].Ok? then [rs[0].value] else []) + rest
  }

  /** The kept orders keep their row order. */
  lemma {:induction false} KeepOkConcat(a: seq<Result<ApiOrder.Order, CohvError>>, b: seq<Result<ApiOrder.Order, CohvError>>)
    ensures KeepOk(a + b) == KeepOk(a) + KeepOk(b)
  {
    if |a| > 0 {
      assert (a + b)[1..] == a[1..] + b;
      KeepOkConcat(a[1..], b);
    } else {
      assert a + b == b;
    }
  }

  /** What `parse_cohv_xl` yields for a given read of the file. */
  function KeepOkOutcome(read: Outcome<seq<Result<ApiOrder.Order, CohvError>>, ReadError<CohvHeader>>): (r: Outcome<seq<ApiOrder.Order>, ReadError<CohvHeader>>)
    ensures r.Panics? <==> read.Panics?
    ensures r.Returns? && r.result.Err? <==> read.Returns? && read.result.Err?
    ensures r.Returns? && r.result.Err? ==> r.result.error == read.result.error
    ensures r.Returns? && r.result.Ok? ==> r.result.value == KeepOk(read.result.value)
  {
    match read
    case Panics => Panics
    case Returns(Err(e)) => Returns(Err(e))
    case Returns(Ok(rs)) => Returns(Ok(KeepOk(rs)))
  }

  /** `parse_cohv_xl` on an opened file: a fresh reader, then only the
      rows that parsed, in order. */
  method ParseCohvXl(file: Option<seq<Sheet>>) returns (out: Outcome<seq<ApiOrder.Order>, ReadError<CohvHeader>>)
    ensures out == KeepOkOutcome(ReadSpec(CohvSchema(), map[], file))
  {
    var reader := new TableReader(CohvSchema());
    var read := reader.ReadFile(file);
    match read
    case Panics => out := Panics;
    case Returns(Err(e)) => out := Returns(Err(e));
    case Returns(Ok(rs)) => out := Returns(Ok(KeepOk(rs)));
  }
}
