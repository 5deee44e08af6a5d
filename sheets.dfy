/** What the three import services share: a worksheet seen as a finite map
    from cell addresses to cell text, the header-row check, the uploaded file
    and how its extension selects the workbook reader, the path rule of the
    CSV conversion, and the shapes of a row scan and of an import's outcome. */
module Sheets {
  import opened Results
  import opened Text

  /** A cell address such as `B7`: a column letter and a 1-based row. */
  datatype Coord = Coord(column: char, row: int)

  datatype Sheet = Sheet(cells: map<Coord, string>, lastRow: int)

  /** A worksheet: only the cells that hold text are in the map, and none of
      them lies below `lastRow` (the last row the spreadsheet library reports
      as used). Every cell outside the map reads as the empty string. */
  type Worksheet = s: Sheet | forall c :: c in s.cells ==> c.row <= s.lastRow
    witness Sheet(map[], 0)

  /** `sheet.Cell($"{column}{row}").Value.ToString()`. */
  function CellText(ws: Worksheet, column: char, row: int): string
  {
    if Coord(column, row) in ws.cells then ws.cells[Coord(column, row)] else ""
  }

  /** The `i`-th column letter, starting at `A`. */
  function ColumnLetter(i: nat): (c: char)
    requires i < 26
    ensures 'A' <= c <= 'Z' && c as int - 'A' as int == i
  {
    ('A' as int + i) as char
  }

  /** Row 1 holds the expected field names, one per column from `A`, with
      exact (case-sensitive) equality. */
  predicate HeadersMatch(ws: Worksheet, fields: seq<string>)
    requires |fields| <= 26
  {
    forall i :: 0 <= i < |fields| ==> fields[i] == CellText(ws, ColumnLetter(i), 1)
  }

  /** The header loop of `ValidateFile`: walks the column letter from `A`
      over the field names and stops at the first mismatch. */
  method CheckHeaders(ws: Worksheet, fields: seq<string>) returns (ok: bool)
    requires |fields| <= 26
    ensures ok <==> HeadersMatch(ws, fields)
    ensures !ok ==> exists i :: 0 <= i < |fields| && fields[i] != CellText(ws, ColumnLetter(i), 1)
  {
    var column := 'A';
    var i := 0;
    while i < |fields|
      invariant 0 <= i <= |fields|
      invariant column as int == 'A' as int + i
      invariant forall j :: 0 <= j < i ==> fields[j] == CellText(ws, ColumnLetter(j), 1)
    {
      if fields[i] != CellText(ws, column, 1) {
        assert column == ColumnLetter(i);
        return false;
      }
      column := (column as int + 1) as char;
      i := i + 1;
    }
    return true;
  }

  /** A row whose cells in all of `columns` are empty: the end-of-file test. */
  predicate IsBlankRow(ws: Worksheet, columns: seq<char>, row: int)
  {
    forall i :: 0 <= i < |columns| ==> CellText(ws, columns[i], row) == ""
  }

  /** A row that is not blank lies within the used range, so a scan that
      stops at the first blank row stops at the latest after `lastRow`. */
  lemma NonBlankRowIsUsed(ws: Worksheet, columns: seq<char>, row: int)
    requires !IsBlankRow(ws, columns, row)
    ensures row <= ws.lastRow
  {
    var i :| 0 <= i < |columns| && CellText(ws, columns[i], row) != "";
    assert Coord(columns[i], row) in ws.cells;
  }

  /** An uploaded file: its name, the workbook an `.xlsx` body holds, and the
      table a `.csv` body holds. Which of the two is read depends on the
      extension of the name only. */
  datatype Upload = Upload(fileName: string, workbook: map<string, Worksheet>, csvTable: Worksheet)

  /** `"." + fileName.Split('.')[^1]`. */
  function FileExtension(fileName: string): string
  {
    "." + LastPiece(fileName, '.')
  }

  /** The extension is `"." + piece` exactly when the name ends with
      `"." + piece`, or is `piece` itself (a name without any dot). */
  lemma FileExtensionIs(fileName: string, piece: string)
    requires '.' !in piece
    ensures FileExtension(fileName) == "." + piece <==>
      (fileName == piece
       || (|fileName| > |piece| && fileName[|fileName| - |piece| - 1..] == "." + piece))
  {
    var last := LastPiece(fileName, '.');
    var n := |fileName|;
    if FileExtension(fileName) == "." + piece {
      assert last == ("." + last)[1..] == ("." + piece)[1..] == piece;
      if |last| < n {
        assert fileName[n - |piece| - 1..] == [fileName[n - |piece| - 1]] + fileName[n - |piece|..];
      }
    }
    if |fileName| > |piece| && fileName[n - |piece| - 1..] == "." + piece {
      assert fileName[n - |piece|..] == fileName[n - |piece| - 1..][1..];
      LastPieceIs(fileName, '.', piece);
    }
  }

  const XlsxExtension: string := ".xlsx"
  const CsvExtension: string := ".csv"

  const FormatMessage: string :=
    "Format of uploaded file is incorrect. It must have .xlsx or .csv extension"
  const HeadersMessage: string := "Check headers in the file."

  /** The workbook the upload yields: the `.xlsx` workbook as it is, a `.csv`
      table converted into a workbook with one sheet named `csvSheetName`,
      and nothing for any other extension. */
  function LoadWorkbook(upload: Upload, csvSheetName: string): (book: Option<map<string, Worksheet>>)
    ensures book.None? <==> FileExtension(upload.fileName) !in {XlsxExtension, CsvExtension}
    ensures FileExtension(upload.fileName) == XlsxExtension ==> book == Some(upload.workbook)
    ensures FileExtension(upload.fileName) == CsvExtension ==>
      book == Some(map[csvSheetName := upload.csvTable])
  {
    var extension := FileExtension(upload.fileName);
    if extension == XlsxExtension then Some(upload.workbook)
    else if extension == CsvExtension then Some(map[csvSheetName := upload.csvTable])
    else None
  }

  /** The path of the converted workbook: `pathToCsv.Remove(Length - 4)`
      followed by `.xlsx`; `Remove` throws on a path shorter than 4. */
  function ConvertedExcelPath(pathToCsv: string): (r: Option<string>)
    ensures r.Some? <==> |pathToCsv| >= 4
    ensures r.Some? ==>
      |r.value| == |pathToCsv| + 1
      && r.value[..|pathToCsv| - 4] == pathToCsv[..|pathToCsv| - 4]
      && r.value[|pathToCsv| - 4..] == XlsxExtension
  {
    if |pathToCsv| < 4 then None else Some(pathToCsv[..|pathToCsv| - 4] + XlsxExtension)
  }

  /** A CSV path `stem.csv` is converted to `stem.xlsx`. */
  lemma ConvertedPathOfCsv(stem: string)
    ensures ConvertedExcelPath(stem + CsvExtension) == Some(stem + XlsxExtension)
  {
    assert (stem + CsvExtension)[..|stem|] == stem;
  }

  /** How a scan of the data rows ends: at the first blank row, at a row
      refused with the message of the exception thrown for it, or at a row
      while reading which an exception no handler catches escaped. */
  datatype ScanEnd = Completed | Stopped(row: int, message: string) | Crashed(row: int, exception: string)

  /** A scan: the rows accepted, in order, and how it ended after them. */
  datatype Scan<T> = Scan(rows: seq<T>, end: ScanEnd)

  /** The scan from an earlier row: `done` accepted before `rest`. */
  function Behind<T>(done: seq<T>, rest: Scan<T>): (s: Scan<T>)
    ensures s.end == rest.end && |s.rows| == |done| + |rest.rows|
    ensures s.rows[..|done|] == done && s.rows[|done|..] == rest.rows
  {
    Scan(done + rest.rows, rest.end)
  }

  /** Accepting rows one at a time builds the same scan as accepting them
      together. */
  lemma BehindTwice<T>(done: seq<T>, row: T, rest: Scan<T>)
    ensures Behind(done, Behind([row], rest)) == Behind(done + [row], rest)
  {
    assert done + ([row] + rest.rows) == (done + [row]) + rest.rows;
  }

  /** What reading one data row leads to: the row accepted, the row refused
      with the message a handler reports, or an exception no handler
      catches. */
  datatype Verdict<T> = Accept(accepted: T) | Refuse(message: string) | Crash(exception: string)

  /** The loop of an import from `row` on: rows are judged by `verdictOf`
      one after the other until the first row that is blank in all of
      `columns` or the first row that is not accepted. */
  function ScanRows<T>(ws: Worksheet, columns: seq<char>, verdictOf: nat -> Verdict<T>, row: nat): Scan<T>
    decreases ws.lastRow + 1 - row
  {
    if IsBlankRow(ws, columns, row) then Scan([], Completed)
    else
      NonBlankRowIsUsed(ws, columns, row);
      var verdict := verdictOf(row);
      if verdict.Refuse? then Scan([], Stopped(row, verdict.message))
      else if verdict.Crash? then Scan([], Crashed(row, verdict.exception))
      else Behind([verdict.accepted], ScanRows(ws, columns, verdictOf, row + 1))
  }

  /** What a scan means: every accepted row is non-blank and accepted by
      `verdictOf`, in order; the scan ends at the first blank row, or at the
      first row right after them that is refused or crashes, with its
      message or exception. */
  lemma ScanRowsMeaning<T>(ws: Worksheet, columns: seq<char>, verdictOf: nat -> Verdict<T>, row: nat)
    ensures var s := ScanRows(ws, columns, verdictOf, row);
      forall r :: row <= r < row + |s.rows| ==> !IsBlankRow(ws, columns, r)
    ensures var s := ScanRows(ws, columns, verdictOf, row);
      forall i :: 0 <= i < |s.rows| ==> verdictOf(row + i) == Accept(s.rows[i])
    ensures var s := ScanRows(ws, columns, verdictOf, row);
      (s.end.Completed? ==> IsBlankRow(ws, columns, row + |s.rows|))
      && (!s.end.Completed? ==> s.end.row == row + |s.rows| && !IsBlankRow(ws, columns, s.end.row))
      && (s.end.Stopped? ==> verdictOf(s.end.row) == Refuse(s.end.message))
      && (s.end.Crashed? ==> verdictOf(s.end.row) == Crash(s.end.exception))
  {
    ScanRowsNonBlank(ws, columns, verdictOf, row);
    ScanRowsAccepted(ws, columns, verdictOf, row);
    ScanRowsEnd(ws, columns, verdictOf, row);
  }

  /** The rows a scan accepts are not blank. */
  lemma {:induction false} ScanRowsNonBlank<T>(ws: Worksheet, columns: seq<char>, verdictOf: nat -> Verdict<T>, row: nat)
    ensures var s := ScanRows(ws, columns, verdictOf, row);
      forall r :: row <= r < row + |s.rows| ==> !IsBlankRow(ws, columns, r)
    decreases ws.lastRow + 1 - row
  {
    if !IsBlankRow(ws, columns, row) && verdictOf(row).Accept? {
      NonBlankRowIsUsed(ws, columns, row);
      ScanRowsNonBlank(ws, columns, verdictOf, row + 1);
    }
  }

  /** The rows a scan accepts are those `verdictOf` accepts, in row order. */
  lemma {:induction false} ScanRowsAccepted<T>(ws: Worksheet, columns: seq<char>, verdictOf: nat -> Verdict<T>, row: nat)
    ensures forall i :: 0 <= i < |ScanRows(ws, columns, verdictOf, row).rows| ==>
      verdictOf(row + i) == Accept(ScanRows(ws, columns, verdictOf, row).rows[i])
    decreases ws.lastRow + 1 - row
  {
    if !IsBlankRow(ws, columns, row) && verdictOf(row).Accept? {
      NonBlankRowIsUsed(ws, columns, row);
      var rest := ScanRows(ws, columns, verdictOf, row + 1);
      var s := ScanRows(ws, columns, verdictOf, row);
      assert s == Behind([verdictOf(row).accepted], rest);
      ScanRowsAccepted(ws, columns, verdictOf, row + 1);
      forall i | 1 <= i < |s.rows|
        ensures verdictOf(row + i) == Accept(s.rows[i])
      {
        assert s.rows[i] == rest.rows[i - 1];
      }
    }
  }

  /** A scan ends at the first blank row, or at the row right after the
      rows it accepts, which `verdictOf` refuses or crashes on. */
  lemma {:induction false} ScanRowsEnd<T>(ws: Worksheet, columns: seq<char>, verdictOf: nat -> Verdict<T>, row: nat)
    ensures var s := ScanRows(ws, columns, verdictOf, row);
      (s.end.Completed? ==> IsBlankRow(ws, columns, row + |s.rows|))
      && (!s.end.Completed? ==> s.end.row == row + |s.rows| && !IsBlankRow(ws, columns, s.end.row))
      && (s.end.Stopped? ==> verdictOf(s.end.row) == Refuse(s.end.message))
      && (s.end.Crashed? ==> verdictOf(s.end.row) == Crash(s.end.exception))
    decreases ws.lastRow + 1 - row
  {
    if !IsBlankRow(ws, columns, row) && verdictOf(row).Accept? {
      NonBlankRowIsUsed(ws, columns, row);
      ScanRowsEnd(ws, columns, verdictOf, row + 1);
    }
  }

  /** Two sheets blank in the same rows whose rows are judged alike are
      scanned alike. */
  lemma {:induction false} ScanRowsAgree<T>(ws1: Worksheet, ws2: Worksheet, columns: seq<char>,
                                            verdictOf1: nat -> Verdict<T>, verdictOf2: nat -> Verdict<T>, row: nat)
    requires forall r: nat :: IsBlankRow(ws1, columns, r) == IsBlankRow(ws2, columns, r)
    requires forall r: nat :: verdictOf1(r) == verdictOf2(r)
    ensures ScanRows(ws1, columns, verdictOf1, row) == ScanRows(ws2, columns, verdictOf2, row)
    decreases ws1.lastRow + 1 - row
  {
    if !IsBlankRow(ws1, columns, row) {
      NonBlankRowIsUsed(ws1, columns, row);
      ScanRowsAgree(ws1, ws2, columns, verdictOf1, verdictOf2, row + 1);
    }
  }

  /** One step of the loop: a row that is not blank is judged; an accepted
      row goes ahead of the rows after it. */
  lemma ScanRowsStep<T>(ws: Worksheet, columns: seq<char>, verdictOf: nat -> Verdict<T>, row: nat)
    requires !IsBlankRow(ws, columns, row)
    ensures verdictOf(row).Refuse? ==> ScanRows(ws, columns, verdictOf, row) == Scan([], Stopped(row, verdictOf(row).message))
    ensures verdictOf(row).Crash? ==> ScanRows(ws, columns, verdictOf, row) == Scan([], Crashed(row, verdictOf(row).exception))
    ensures verdictOf(row).Accept? ==>
      ScanRows(ws, columns, verdictOf, row) == Behind([verdictOf(row).accepted], ScanRows(ws, columns, verdictOf, row + 1))
  {
  }

  /** The loop ends at a blank row. */
  lemma ScanRowsEnds<T>(ws: Worksheet, columns: seq<char>, verdictOf: nat -> Verdict<T>, row: nat)
    requires IsBlankRow(ws, columns, row)
    ensures ScanRows(ws, columns, verdictOf, row) == Scan([], Completed)
  {
  }

  /** One pass of an import loop over a row it accepts: the rows accepted
      so far grow by that row, and the scan goes on from the next row. */
  lemma ScanAccepts<T>(ws: Worksheet, columns: seq<char>, verdictOf: nat -> Verdict<T>, row: nat, done: seq<T>)
    requires !IsBlankRow(ws, columns, row) && verdictOf(row).Accept?
    ensures Behind(done, ScanRows(ws, columns, verdictOf, row))
         == Behind(done + [verdictOf(row).accepted], ScanRows(ws, columns, verdictOf, row + 1))
  {
    ScanRowsStep(ws, columns, verdictOf, row);
    BehindTwice(done, verdictOf(row).accepted, ScanRows(ws, columns, verdictOf, row + 1));
  }

  /** One pass of an import loop over a row it does not accept: the scan
      ends there with the rows accepted so far. */
  lemma ScanStops<T>(ws: Worksheet, columns: seq<char>, verdictOf: nat -> Verdict<T>, row: nat, done: seq<T>)
    requires !IsBlankRow(ws, columns, row) && !verdictOf(row).Accept?
    ensures verdictOf(row).Refuse? ==>
      Behind(done, ScanRows(ws, columns, verdictOf, row)) == Scan(done, Stopped(row, verdictOf(row).message))
    ensures verdictOf(row).Crash? ==>
      Behind(done, ScanRows(ws, columns, verdictOf, row)) == Scan(done, Crashed(row, verdictOf(row).exception))
  {
    ScanRowsStep(ws, columns, verdictOf, row);
    assert done + [] == done;
  }

  /** An import loop that reaches a blank row completes with the rows
      accepted so far. */
  lemma ScanCompletes<T>(ws: Worksheet, columns: seq<char>, verdictOf: nat -> Verdict<T>, row: nat, done: seq<T>)
    requires IsBlankRow(ws, columns, row)
    ensures Behind(done, ScanRows(ws, columns, verdictOf, row)) == Scan(done, Completed)
  {
    ScanRowsEnds(ws, columns, verdictOf, row);
    assert done + [] == done;
  }

  /** What `ValidateFile` ends with: the worksheet, a `FormatException`,
      or the `ArgumentException` of a workbook without the sheet. */
  datatype Opening = Opened(sheet: Worksheet) | Refused(reason: Refusal) | NoSuchSheet

  /** Why `ValidateFile` throws a `FormatException`: an extension with no
      reader, or a row 1 that does not hold the field names. */
  datatype Refusal = UnknownExtension | HeadersMismatch
  {
    /** The message of the exception. */
    function Message(): string
    {
      match this
      case UnknownExtension => FormatMessage
      case HeadersMismatch => HeadersMessage
    }
  }

  /** The worksheet `sheetName` of the uploaded workbook, once the extension
      selected a reader and row 1 matched the field names. */
  function OpenSheet(upload: Upload, csvSheetName: string, sheetName: string, fields: seq<string>): (r: Opening)
    requires |fields| <= 26
    ensures r == Refused(UnknownExtension) <==> LoadWorkbook(upload, csvSheetName).None?
    ensures r.NoSuchSheet? <==>
      LoadWorkbook(upload, csvSheetName).Some? && sheetName !in LoadWorkbook(upload, csvSheetName).value
    ensures r == Refused(HeadersMismatch) <==>
      LoadWorkbook(upload, csvSheetName).Some? && sheetName in LoadWorkbook(upload, csvSheetName).value
      && !HeadersMatch(LoadWorkbook(upload, csvSheetName).value[sheetName], fields)
    ensures r.Opened? ==>
      LoadWorkbook(upload, csvSheetName).Some? && sheetName in LoadWorkbook(upload, csvSheetName).value
      && r.sheet == LoadWorkbook(upload, csvSheetName).value[sheetName] && HeadersMatch(r.sheet, fields)
  {
    var book := LoadWorkbook(upload, csvSheetName);
    if book.None? then Refused(UnknownExtension)
    else if sheetName !in book.value then NoSuchSheet
    else if !HeadersMatch(book.value[sheetName], fields) then Refused(HeadersMismatch)
    else Opened(book.value[sheetName])
  }

  /** `ValidateFile`: the reader chosen by extension, then the sheet, then
      the header loop. */
  method ValidateFile(upload: Upload, csvSheetName: string, sheetName: string, fields: seq<string>)
    returns (r: Opening)
    requires |fields| <= 26
    ensures r == OpenSheet(upload, csvSheetName, sheetName, fields)
  {
    var extension := FileExtension(upload.fileName);
    var book: map<string, Worksheet>;
    if extension == XlsxExtension {
      book := upload.workbook;
    } else if extension == CsvExtension {
      book := map[csvSheetName := upload.csvTable];
    } else {
      return Refused(UnknownExtension);
    }
    if sheetName !in book {
      return NoSuchSheet;
    }
    var ok := CheckHeaders(book[sheetName], fields);
    if !ok {
      return Refused(HeadersMismatch);
    }
    return Opened(book[sheetName]);
  }

  /** What an import hands back: a result value, or an exception that leaves
      `ImportFileAsync` uncaught. */
  datatype ImportOutcome<T> = Returned(result: Result<seq<T>>) | Thrown(exception: string)

  /** The exception `Worksheet(name)` throws for a missing sheet. */
  const MissingSheetException: string := "ArgumentException"
  /** The exception of an integer conversion whose value does not fit. */
  const OverflowException: string := "OverflowException"
  /** The exception of a commit that the store refuses. */
  const CommitException: string := "DbUpdateException"
}
