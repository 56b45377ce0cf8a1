/** The generic spreadsheet-table reader (src/excel/excel.rs): a header row is
    matched against the columns a schema needs, then every data row is handed
    to the schema's row parser. */
module ExcelTable {
  import opened Wrappers
  import opened Numerals

  /** A worksheet cell, reduced to what the readers ask of it. `Float`
      carries the value its `as u32` cast yields. */
  datatype Cell = Str(text: string) | Float(asU32: U32) | Int(value: int) | Empty

  /** The rows of one worksheet. */
  type Sheet = seq<seq<Cell>>

  /** The header-column strategy a table type supplies: which header texts
      name which column, the columns that must all be found, each column's
      display name, and how one data row becomes a value. A row parser
      returns an error the caller may keep, or panics. */
  datatype Schema<!H(==,!new), R, E> = Schema(
    matchHeaderColumn: string -> Option<H>,
    columnsToMatch: seq<H>,
    columnName: H -> string,
    parseRow: (map<H, nat>, seq<Cell>) -> Outcome<R, E>)

  /** Failures of `read_file` the caller sees. */
  datatype ReadError<H> = OpenFailed | NotAllMatched(missing: seq<H>)

  // ---------------------------------------------------------------------
  // The header scan.
  // ---------------------------------------------------------------------

  /** Every required column has an index. */
  predicate Complete<H(==,!new)>(cols: seq<H>, m: map<H, nat>) {
    forall h :: h in cols ==> h in m
  }

  /** One header cell with text `text` at index i: a recognised text
      (re)binds its column to i. */
  function Absorb<H(==,!new), R, E>(sch: Schema<H, R, E>, m: map<H, nat>, text: string, i: nat): (r: map<H, nat>)
    ensures forall h :: h in r <==> h in m || sch.matchHeaderColumn(text) == Some(h)
  {
    match sch.matchHeaderColumn(text)
    case Some(h) => m[h := i]
    case None => m
  }

  /** `parse_header` from cell i on: each cell's text is absorbed, and the
      scan stops right after the first cell that completes the header.
      None when a visited cell is not text (the `unwrap` there panics). */
  function Scan<H(==,!new), R, E>(sch: Schema<H, R, E>, m: map<H, nat>, row: seq<Cell>, i: nat): Option<map<H, nat>>
    requires i <= |row|
    decreases |row| - i
  {
    if i == |row| then Some(m)
    else if !row[i].Str? then None
    else
      var m' := Absorb(sch, m, row[i].text, i);
      if Complete(sch.columnsToMatch, m') then Some(m') else Scan(sch, m', row, i + 1)
  }

  /** The first n cells of the row are text. */
  predicate TextCells(row: seq<Cell>, n: nat)
    requires n <= |row|
  {
    forall k :: 0 <= k < n ==> row[k].Str?
  }

  /** The map after absorbing the first n cells one after another, never
      stopping: the reference the scan is measured against. */
  function Fold<H(==,!new), R, E>(sch: Schema<H, R, E>, m: map<H, nat>, row: seq<Cell>, n: nat): map<H, nat>
    requires n <= |row| && TextCells(row, n)
  {
    if n == 0 then m else Absorb(sch, Fold(sch, m, row, n - 1), row[n - 1].text, n - 1)
  }

  /** Cell k of the row is a header text naming column h. */
  predicate Denotes<H(==,!new), R, E>(sch: Schema<H, R, E>, row: seq<Cell>, k: nat, h: H) {
    k < |row| && row[k].Str? && sch.matchHeaderColumn(row[k].text) == Some(h)
  }

  /** One step of the scan over a text cell that leaves the header incomplete. */
  lemma ScanStep<H(!new), R, E>(sch: Schema<H, R, E>, m: map<H, nat>, row: seq<Cell>, i: nat)
    requires i < |row| && row[i].Str?
    requires !Complete(sch.columnsToMatch, Absorb(sch, m, row[i].text, i))
    ensures Scan(sch, m, row, i) == Scan(sch, Absorb(sch, m, row[i].text, i), row, i + 1)
  {
  }

  /** While no prefix of the row completes the header, scanning from the
      start is scanning the rest from the folded map. */
  lemma {:induction false} ScanResumes<H(!new), R, E>(sch: Schema<H, R, E>, m: map<H, nat>, row: seq<Cell>, i: nat)
    requires i <= |row| && TextCells(row, i)
    requires forall j :: 1 <= j <= i ==> !Complete(sch.columnsToMatch, Fold(sch, m, row, j))
    ensures Scan(sch, m, row, 0) == Scan(sch, Fold(sch, m, row, i), row, i)
  {
    if i > 0 {
      ScanResumes(sch, m, row, i - 1);
      assert !Complete(sch.columnsToMatch, Fold(sch, m, row, i));
    }
  }

  /** The scan ends with the map of the first prefix that completes the header. */
  lemma ScanStopsAtFirstComplete<H(!new), R, E>(sch: Schema<H, R, E>, m: map<H, nat>, row: seq<Cell>, n: nat)
    requires 1 <= n <= |row| && TextCells(row, n)
    requires Complete(sch.columnsToMatch, Fold(sch, m, row, n))
    requires forall j :: 1 <= j < n ==> !Complete(sch.columnsToMatch, Fold(sch, m, row, j))
    ensures Scan(sch, m, row, 0) == Some(Fold(sch, m, row, n))
  {
    ScanResumes(sch, m, row, n - 1);
  }

  /** A header never completed is read to its end. */
  lemma ScanReadsToEnd<H(!new), R, E>(sch: Schema<H, R, E>, m: map<H, nat>, row: seq<Cell>)
    requires TextCells(row, |row|)
    requires forall j :: 1 <= j <= |row| ==> !Complete(sch.columnsToMatch, Fold(sch, m, row, j))
    ensures Scan(sch, m, row, 0) == Some(Fold(sch, m, row, |row|))
  {
    ScanResumes(sch, m, row, |row|);
  }

  /** A non-text cell reached before the header is complete panics. */
  lemma ScanPanics<H(!new), R, E>(sch: Schema<H, R, E>, m: map<H, nat>, row: seq<Cell>, n: nat)
    requires n < |row| && TextCells(row, n) && !row[n].Str?
    requires forall j :: 1 <= j <= n ==> !Complete(sch.columnsToMatch, Fold(sch, m, row, j))
    ensures Scan(sch, m, row, 0).None?
  {
    ScanResumes(sch, m, row, n);
  }

  /** The fold over a prefix sees only that prefix. */
  lemma {:induction false} FoldPrefix<H(!new), R, E>(sch: Schema<H, R, E>, m: map<H, nat>, row: seq<Cell>, row': seq<Cell>, n: nat)
    requires n <= |row| && n <= |row'| && row[..n] == row'[..n] && TextCells(row, n)
    ensures TextCells(row', n)
    ensures Fold(sch, m, row, n) == Fold(sch, m, row', n)
  {
    assert forall k :: 0 <= k < n ==> row[k] == row[..n][k] == row'[..n][k] == row'[k];
    if n > 0 {
      assert row[..n - 1] == row[..n][..n - 1] == row'[..n][..n - 1] == row'[..n - 1];
      FoldPrefix(sch, m, row, row', n - 1);
    }
  }

  /** Cells after the one that completes the header never affect the map. */
  lemma ScanIgnoresLaterCells<H(!new), R, E>(sch: Schema<H, R, E>, m: map<H, nat>, row: seq<Cell>, row': seq<Cell>, n: nat)
    requires 1 <= n <= |row| && TextCells(row, n)
    requires Complete(sch.columnsToMatch, Fold(sch, m, row, n))
    requires forall j :: 1 <= j < n ==> !Complete(sch.columnsToMatch, Fold(sch, m, row, j))
    requires n <= |row'| && row'[..n] == row[..n]
    ensures Scan(sch, m, row', 0) == Scan(sch, m, row, 0)
  {
    forall j | 1 <= j <= n
      ensures TextCells(row', j) && Fold(sch, m, row', j) == Fold(sch, m, row, j)
    {
      assert row[..j] == row[..n][..j] == row'[..n][..j] == row'[..j];
      FoldPrefix(sch, m, row, row', j);
    }
    ScanStopsAtFirstComplete(sch, m, row, n);
    ScanStopsAtFirstComplete(sch, m, row', n);
  }

  /** Of several cells naming the same column, the last one folded wins. */
  lemma {:induction false} FoldLaterWins<H(!new), R, E>(sch: Schema<H, R, E>, m: map<H, nat>, row: seq<Cell>, n: nat, h: H, k: nat)
    requires k < n <= |row| && TextCells(row, n) && Denotes(sch, row, k, h)
    requires forall k' :: k < k' < n ==> !Denotes(sch, row, k', h)
    ensures h in Fold(sch, m, row, n) && Fold(sch, m, row, n)[h] == k
  {
    if k < n - 1 {
      FoldLaterWins(sch, m, row, n - 1, h, k);
      assert !Denotes(sch, row, n - 1, h);
    }
  }

  /** A column no folded cell names keeps its entry of the starting map. */
  lemma {:induction false} FoldKeepsUnnamed<H(!new), R, E>(sch: Schema<H, R, E>, m: map<H, nat>, row: seq<Cell>, n: nat, h: H)
    requires n <= |row| && TextCells(row, n)
    requires forall k :: 0 <= k < n ==> !Denotes(sch, row, k, h)
    ensures h in Fold(sch, m, row, n) <==> h in m
    ensures h in m ==> Fold(sch, m, row, n)[h] == m[h]
  {
    if n > 0 {
      FoldKeepsUnnamed(sch, m, row, n - 1, h);
      assert !Denotes(sch, row, n - 1, h);
    }
  }

  /** Every entry the scan leaves is either one it started with or the index
      of a cell at or after i whose text names that column; starting entries
      are never removed. */
  lemma {:induction false} ScanSound<H(!new), R, E>(sch: Schema<H, R, E>, m: map<H, nat>, row: seq<Cell>, i: nat)
    requires i <= |row|
    ensures Scan(sch, m, row, i).Some? ==>
      var r := Scan(sch, m, row, i).value;
      (forall h :: h in m ==> h in r)
      && (forall h :: h in r ==> (h in m && r[h] == m[h]) || (i <= r[h] && Denotes(sch, row, r[h], h)))
    decreases |row| - i
  {
    if i < |row| && row[i].Str? {
      var m' := Absorb(sch, m, row[i].text, i);
      if !Complete(sch.columnsToMatch, m') {
        ScanSound(sch, m', row, i + 1);
      }
    }
  }

  /** From an empty map, every entry points at a cell naming its column. */
  lemma ScanFromEmptySound<H(!new), R, E>(sch: Schema<H, R, E>, row: seq<Cell>)
    ensures Scan(sch, map[], row, 0).Some? ==>
      var r := Scan(sch, map[], row, 0).value;
      forall h :: h in r ==> Denotes(sch, row, r[h], h)
  {
    ScanSound(sch, map[], row, 0);
  }

  // ---------------------------------------------------------------------
  // Missing columns.
  // ---------------------------------------------------------------------

  /** The required columns absent from the map, in their listed order. */
  function Missing<H(==,!new)>(cols: seq<H>, m: map<H, nat>): (r: seq<H>)
    ensures forall h :: h in r <==> h in cols && h !in m
    ensures |r| <= |cols|
  {
    if |cols| == 0 then []
    else (if cols[0] in m then [] else [cols[0]]) + Missing(cols[1..], m)
  }

  /** Nothing is missing exactly when the header is complete. */
  lemma MissingEmptyIffComplete<H(!new)>(cols: seq<H>, m: map<H, nat>)
    ensures Missing(cols, m) == [] <==> Complete(cols, m)
  {
    if Missing(cols, m) != [] {
      assert Missing(cols, m)[0] in Missing(cols, m);
    }
  }

  /** Filtering keeps the listed order: the missing columns of a
      concatenation are the concatenation of the missing columns. */
  lemma {:induction false} MissingConcat<H(!new)>(a: seq<H>, b: seq<H>, m: map<H, nat>)
    ensures Missing(a + b, m) == Missing(a, m) + Missing(b, m)
  {
    if |a| > 0 {
      assert (a + b)[1..] == a[1..] + b;
      MissingConcat(a[1..], b, m);
    } else {
      assert a + b == b;
    }
  }

  // ---------------------------------------------------------------------
  // The data rows and the whole read.
  // ---------------------------------------------------------------------

  /** All data rows parsed in order; None when a row parser panics. A row
      that returns an error does not stop the rows after it. */
  function ParseAll<H(==,!new), R, E>(sch: Schema<H, R, E>, m: map<H, nat>, rows: seq<seq<Cell>>): (r: Option<seq<Result<R, E>>>)
    ensures r.Some? <==> forall j :: 0 <= j < |rows| ==> !sch.parseRow(m, rows[j]).Panics?
    ensures r.Some? ==> |r.value| == |rows|
    ensures r.Some? ==> forall j :: 0 <= j < |rows| ==> r.value[j] == sch.parseRow(m, rows[j]).result
  {
    if |rows| == 0 then Some([])
    else
      var init := ParseAll(sch, m, rows[..|rows| - 1]);
      var last := sch.parseRow(m, rows[|rows| - 1]);
      if init.None? || last.Panics? then None else Some(init.value + [last.result])
  }

  /** One result per row, whatever the other rows give. */
  lemma {:induction false} ParseAllConcat<H(!new), R, E>(sch: Schema<H, R, E>, m: map<H, nat>, a: seq<seq<Cell>>, b: seq<seq<Cell>>)
    requires ParseAll(sch, m, a).Some? && ParseAll(sch, m, b).Some?
    ensures ParseAll(sch, m, a + b) == Some(ParseAll(sch, m, a).value + ParseAll(sch, m, b).value)
  {
    var r := ParseAll(sch, m, a + b);
    var ra, rb := ParseAll(sch, m, a).value, ParseAll(sch, m, b).value;
    forall j | 0 <= j < |a + b|
      ensures !sch.parseRow(m, (a + b)[j]).Panics?
      ensures sch.parseRow(m, (a + b)[j]).result == (ra + rb)[j]
    {
      if j < |a| {
        assert (a + b)[j] == a[j];
      } else {
        assert (a + b)[j] == b[j - |a|];
      }
    }
    assert r.Some?;
    assert r.value == ra + rb;
  }

  /** `read_file` as one value: a file that does not open is an error; a
      workbook without a worksheet or a sheet without a row panics; an
      incomplete header is an error naming the missing columns; otherwise
      each data row's result, in order. */
  function ReadSpec<H(==,!new), R, E>(sch: Schema<H, R, E>, m0: map<H, nat>, file: Option<seq<Sheet>>): (r: Outcome<seq<Result<R, E>>, ReadError<H>>)
    ensures r == Returns(Err(OpenFailed)) <==> file.None?
    ensures r.Returns? && file.Some? ==>
      |file.value| > 0 && |file.value[0]| > 0 && Scan(sch, m0, file.value[0][0], 0).Some?
    ensures r.Returns? && r.result.Err? && r.result.error.NotAllMatched? ==>
      var m := Scan(sch, m0, file.value[0][0], 0).value;
      var missing := r.result.error.missing;
      missing != [] && forall h :: h in missing <==> h in sch.columnsToMatch && h !in m
    ensures r.Returns? && r.result.Ok? ==>
      var rows := file.value[0];
      var m := Scan(sch, m0, rows[0], 0).value;
      Complete(sch.columnsToMatch, m)
      && |r.result.value| == |rows| - 1
      && forall j :: 1 <= j < |rows| ==>
           sch.parseRow(m, rows[j]).Returns? && r.result.value[j - 1] == sch.parseRow(m, rows[j]).result
    ensures file.Some? && (|file.value| == 0 || |file.value[0]| == 0) ==> r.Panics?
    ensures file.Some? && |file.value| > 0 && |file.value[0]| > 0 ==>
      var rows := file.value[0];
      var scan := Scan(sch, m0, rows[0], 0);
      (scan.None? ==> r.Panics?)
      && (scan.Some? && !Complete(sch.columnsToMatch, scan.value) ==>
            r == Returns(Err(NotAllMatched(Missing(sch.columnsToMatch, scan.value)))))
      && (scan.Some? && Complete(sch.columnsToMatch, scan.value) ==>
            (r.Panics? <==> exists j :: 1 <= j < |rows| && sch.parseRow(scan.value, rows[j]).Panics?)
            && (r.Returns? ==> r.result.Ok?))
  {
    match file
    case None => Returns(Err(OpenFailed))
    case Some(sheets) =>
      if |sheets| == 0 || |sheets[0]| == 0 then Panics
      else
        var rows := sheets[0];
        match Scan(sch, m0, rows[0], 0)
        case None => Panics
        case Some(m) =>
          var missing := Missing(sch.columnsToMatch, m);
          MissingEmptyIffComplete(sch.columnsToMatch, m);
          if missing != [] then Returns(Err(NotAllMatched(missing)))
          else
            assert forall j :: 1 <= j < |rows| ==> rows[1..][j - 1] == rows[j];
            match ParseAll(sch, m, rows[1..])
            case None => Panics
            case Some(results) => Returns(Ok(results))
  }

  /** An incomplete header fails the read naming exactly its missing
      columns, whatever the data rows and the other sheets are: none of
      them is looked at. */
  lemma IncompleteHeaderIgnoresRows<H(!new), R, E>(sch: Schema<H, R, E>, m0: map<H, nat>, header: seq<Cell>, rows: seq<seq<Cell>>, others: seq<Sheet>)
    requires Scan(sch, m0, header, 0).Some?
    requires !Complete(sch.columnsToMatch, Scan(sch, m0, header, 0).value)
    ensures ReadSpec(sch, m0, Some([[header] + rows] + others))
      == Returns(Err(NotAllMatched(Missing(sch.columnsToMatch, Scan(sch, m0, header, 0).value))))
  {
    assert ([[header] + rows] + others)[0][0] == header;
  }

  /** A complete header whose data rows all return reads as the results of
      those rows, in order, whatever the other sheets are. */
  lemma CompleteHeaderReadsRows<H(!new), R, E>(sch: Schema<H, R, E>, m0: map<H, nat>, header: seq<Cell>, rows: seq<seq<Cell>>, others: seq<Sheet>)
    requires Scan(sch, m0, header, 0).Some?
    requires Complete(sch.columnsToMatch, Scan(sch, m0, header, 0).value)
    requires ParseAll(sch, Scan(sch, m0, header, 0).value, rows).Some?
    ensures ReadSpec(sch, m0, Some([[header] + rows] + others))
      == Returns(Ok(ParseAll(sch, Scan(sch, m0, header, 0).value, rows).value))
  {
    var sheet := [[header] + rows] + others;
    assert sheet[0][0] == header && sheet[0][1..] == rows;
    MissingEmptyIffComplete(sch.columnsToMatch, Scan(sch, m0, header, 0).value);
  }

  /** `XlsxTableReader`: the column index map a header scan builds, kept
      between reads, and the schema of its table type. */
  class TableReader<H(==,!new), R, E> {
    const schema: Schema<H, R, E>
    var header: map<H, nat>

    /** `new`: no column known yet. */
    constructor (schema: Schema<H, R, E>)
      ensures this.schema == schema && header == map[]
    {
      this.schema := schema;
      header := map[];
    }

    /** `parse_header`: scans the header row into the map. `panicked` when
        a visited cell is not text; the map is then left as the loop had it. */
    method ParseHeader(row: seq<Cell>) returns (panicked: bool)
      modifies this
      ensures panicked <==> Scan(schema, old(header), row, 0).None?
      ensures !panicked ==> Scan(schema, old(header), row, 0) == Some(header)
    {
      var i := 0;
      while i < |row|
        invariant i <= |row|
        invariant Scan(schema, header, row, i) == Scan(schema, old(header), row, 0)
      {
        if !row[i].Str? {
          return true;
        }
        var key := schema.matchHeaderColumn(row[i].text);
        if key.Some? {
          header := header[key.value := i];
        }
        if Complete(schema.columnsToMatch, header) {
          return false;
        }
        i := i + 1;
      }
      return false;
    }

    /** `missing_columns`. */
    function MissingColumns(): (r: seq<H>)
      reads this
      ensures forall h :: h in r <==> h in schema.columnsToMatch && h !in header
    {
      Missing(schema.columnsToMatch, header)
    }

    /** `is_header_matched`: despite its name, true when a required column
        is missing. It stops at the first one. */
    method IsHeaderMatched() returns (somethingMissing: bool)
      ensures somethingMissing <==> MissingColumns() != []
    {
      MissingEmptyIffComplete(schema.columnsToMatch, header);
      var cols := schema.columnsToMatch;
      var j := 0;
      while j < |cols|
        invariant j <= |cols|
        invariant forall k :: 0 <= k < j ==> cols[k] in header
      {
        if cols[j] !in header {
          return true;
        }
        j := j + 1;
      }
      return false;
    }

    /** `read_file` on an already opened file (None: it did not open). The
        map keeps what the header scan made of it. */
    method ReadFile(file: Option<seq<Sheet>>) returns (out: Outcome<seq<Result<R, E>>, ReadError<H>>)
      modifies this
      ensures out == ReadSpec(schema, old(header), file)
      ensures out.Returns? && file.Some? ==> Some(header) == Scan(schema, old(header), file.value[0][0], 0)
      ensures file.None? ==> header == old(header)
    {
      if file.None? {
        return Returns(Err(OpenFailed));
      }
      var sheets := file.value;
      if |sheets| == 0 || |sheets[0]| == 0 {
        return Panics;
      }
      var rows := sheets[0];
      var panicked := ParseHeader(rows[0]);
      if panicked {
        return Panics;
      }
      var somethingMissing := IsHeaderMatched();
      if somethingMissing {
        return Returns(Err(NotAllMatched(MissingColumns())));
      }
      var results: seq<Result<R, E>> := [];
      var j := 1;
      while j < |rows|
        invariant 1 <= j <= |rows|
        invariant ParseAll(schema, header, rows[1..j]) == Some(results)
      {
        var r := schema.parseRow(header, rows[j]);
        if r.Panics? {
          assert rows[1..][j - 1] == rows[j];
          return Panics;
        }
        assert rows[1..j + 1][..j - 1] == rows[1..j];
        results := results + [r.result];
        j := j + 1;
      }
      assert rows[1..j] == rows[1..];
      return Returns(Ok(results));
    }
  }
}
