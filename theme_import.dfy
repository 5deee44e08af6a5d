/** The theme import: a worksheet "Themes" whose column A holds one theme
    name per row from row 2 on. Each row is checked against the saved theme
    names and a length bound and staged as a theme; the first refused row
    rolls everything back, and only a sheet read to its first blank row is
    committed. */
module ThemeImport {
  import opened Results
  import opened Text
  import opened Sheets
  import opened Store

  const ThemesSheet: string := "Themes"
  /** The columns `IsEndOfFile` looks at. */
  const ThemeColumns: seq<char> := ['A']
  const MaxThemeLength: nat := 40

  /** One data row of the sheet. */
  datatype ThemeFile = ThemeFile(themeName: string)

  function ThemeExistsMessage(name: string, row: nat): string
  {
    "Theme with name " + name + " already exists. Problem was occured in col A, row " + NatToString(row) + "."
  }

  function ThemeTooLongMessage(row: nat): string
  {
    "Inputed theme it too long. Problem was occured in col A, row " + NatToString(row) + "."
  }

  /** `IsValueValid`: the message of the exception thrown for a row, or
      `None` when the row passes. A name already saved is reported before a
      name that is too long; a name of exactly the bound passes. */
  function ThemeRowError(existing: seq<string>, name: string, row: nat): (r: Option<string>)
    ensures r.None? <==> name !in existing && |name| <= MaxThemeLength
    ensures name in existing ==> r == Some(ThemeExistsMessage(name, row))
    ensures name !in existing && |name| > MaxThemeLength ==> r == Some(ThemeTooLongMessage(row))
  {
    if name in existing then Some(ThemeExistsMessage(name, row))
    else if |name| > MaxThemeLength then Some(ThemeTooLongMessage(row))
    else None
  }

  /** A row of the sheet as `IsValueValid` judges it against `existing`:
      the name in column A, accepted exactly when no check fails. */
  function ThemeVerdict(ws: Worksheet, existing: seq<string>, row: nat): (v: Verdict<ThemeFile>)
    ensures !v.Crash?
    ensures v.Accept? <==> ThemeRowError(existing, CellText(ws, 'A', row), row).None?
    ensures v.Accept? ==> v.accepted == ThemeFile(CellText(ws, 'A', row))
    ensures v.Refuse? ==> ThemeRowError(existing, CellText(ws, 'A', row), row) == Some(v.message)
  {
    var name := CellText(ws, 'A', row);
    var error := ThemeRowError(existing, name, row);
    if error.Some? then Refuse(error.value) else Accept(ThemeFile(name))
  }

  function ThemeVerdicts(ws: Worksheet, existing: seq<string>): nat -> Verdict<ThemeFile>
  {
    (row: nat) => ThemeVerdict(ws, existing, row)
  }

  /** The loop of `ImportFileAsync` over the sheet, from row 2, each row
      checked against the same saved names. */
  function ScanThemes(ws: Worksheet, existing: seq<string>): Scan<ThemeFile>
  {
    ScanRows(ws, ThemeColumns, ThemeVerdicts(ws, existing), 2)
  }

  /** The scan accepts the names of column A, row by row from row 2, each
      neither saved nor longer than the bound, until a row whose column A is
      empty; or it stops at the first other row with that row's message. */
  lemma ScanThemesMeaning(ws: Worksheet, existing: seq<string>)
    ensures var s := ScanThemes(ws, existing);
      !s.end.Crashed?
      && (forall i :: 0 <= i < |s.rows| ==>
            s.rows[i] == ThemeFile(CellText(ws, 'A', 2 + i)) && s.rows[i].themeName != ""
            && s.rows[i].themeName !in existing && |s.rows[i].themeName| <= MaxThemeLength)
      && (s.end.Completed? ==> CellText(ws, 'A', 2 + |s.rows|) == "")
      && (s.end.Stopped? ==>
            s.end.row == 2 + |s.rows| && CellText(ws, 'A', s.end.row) != ""
            && ThemeRowError(existing, CellText(ws, 'A', s.end.row), s.end.row) == Some(s.end.message))
  {
    var verdicts := ThemeVerdicts(ws, existing);
    assert JudgesThemeRows(verdicts, ws, existing);
    JudgedScanMeaning(ws, existing, verdicts);
  }

  /** `verdicts` judges every row as `ThemeVerdict` does. */
  ghost predicate JudgesThemeRows(verdicts: nat -> Verdict<ThemeFile>, ws: Worksheet, existing: seq<string>)
  {
    forall row: nat {:trigger ThemeVerdict(ws, existing, row)} :: verdicts(row) == ThemeVerdict(ws, existing, row)
  }

  /** `ScanThemesMeaning` for any function that judges rows as the loop
      body does. */
  lemma JudgedScanMeaning(ws: Worksheet, existing: seq<string>, verdicts: nat -> Verdict<ThemeFile>)
    requires JudgesThemeRows(verdicts, ws, existing)
    ensures var s := ScanRows(ws, ThemeColumns, verdicts, 2);
      !s.end.Crashed?
      && (forall i :: 0 <= i < |s.rows| ==>
            s.rows[i] == ThemeFile(CellText(ws, 'A', 2 + i)) && s.rows[i].themeName != ""
            && s.rows[i].themeName !in existing && |s.rows[i].themeName| <= MaxThemeLength)
      && (s.end.Completed? ==> CellText(ws, 'A', 2 + |s.rows|) == "")
      && (s.end.Stopped? ==>
            s.end.row == 2 + |s.rows| && CellText(ws, 'A', s.end.row) != ""
            && ThemeRowError(existing, CellText(ws, 'A', s.end.row), s.end.row) == Some(s.end.message))
  {
    var s := ScanRows(ws, ThemeColumns, verdicts, 2);
    forall i | 0 <= i < |s.rows|
      ensures s.rows[i] == ThemeFile(CellText(ws, 'A', 2 + i)) && s.rows[i].themeName != ""
        && s.rows[i].themeName !in existing && |s.rows[i].themeName| <= MaxThemeLength
    {
      AcceptedThemeRow(ws, existing, verdicts, i);
    }
    JudgedScanEnd(ws, existing, verdicts);
  }

  /** The end-of-file test of the theme sheet looks at column A only. */
  lemma BlankThemeRow(ws: Worksheet, row: nat)
    ensures IsBlankRow(ws, ThemeColumns, row) <==> CellText(ws, 'A', row) == ""
  {
    assert ThemeColumns[0] == 'A';
  }

  /** The `i`-th row the scan accepts holds a new name within the bound. */
  lemma AcceptedThemeRow(ws: Worksheet, existing: seq<string>, verdicts: nat -> Verdict<ThemeFile>, i: nat)
    requires JudgesThemeRows(verdicts, ws, existing)
    requires i < |ScanRows(ws, ThemeColumns, verdicts, 2).rows|
    ensures ScanRows(ws, ThemeColumns, verdicts, 2).rows[i] == ThemeFile(CellText(ws, 'A', 2 + i))
    ensures CellText(ws, 'A', 2 + i) != "" && ThemeRowError(existing, CellText(ws, 'A', 2 + i), 2 + i).None?
  {
    ScanRowsNonBlank(ws, ThemeColumns, verdicts, 2);
    ScanRowsAccepted(ws, ThemeColumns, verdicts, 2);
    BlankThemeRow(ws, 2 + i);
    assert verdicts(2 + i) == ThemeVerdict(ws, existing, 2 + i);
  }

  /** The scan ends at a row whose column A is empty, or at a row refused
      with its message. */
  lemma JudgedScanEnd(ws: Worksheet, existing: seq<string>, verdicts: nat -> Verdict<ThemeFile>)
    requires JudgesThemeRows(verdicts, ws, existing)
    ensures var s := ScanRows(ws, ThemeColumns, verdicts, 2);
      !s.end.Crashed?
      && (s.end.Completed? ==> CellText(ws, 'A', 2 + |s.rows|) == "")
      && (s.end.Stopped? ==>
            s.end.row == 2 + |s.rows| && CellText(ws, 'A', s.end.row) != ""
            && ThemeRowError(existing, CellText(ws, 'A', s.end.row), s.end.row) == Some(s.end.message))
  {
    var s := ScanRows(ws, ThemeColumns, verdicts, 2);
    ScanRowsEnd(ws, ThemeColumns, verdicts, 2);
    if s.end.Completed? {
      BlankThemeRow(ws, 2 + |s.rows|);
    } else {
      BlankThemeRow(ws, s.end.row);
      assert verdicts(s.end.row) == ThemeVerdict(ws, existing, s.end.row);
    }
  }

  /** The staged additions for the accepted rows, in row order. */
  function ThemeChanges(rows: seq<ThemeFile>): (changes: seq<Change>)
    decreases |rows|
  {
    if rows == [] then []
    else ThemeChanges(rows[..|rows| - 1]) + [AddTheme(Theme(0, rows[|rows| - 1].themeName))]
  }

  /** The themes saved for the rows when the next identity is `firstId`. */
  function NewThemes(firstId: int, rows: seq<ThemeFile>): (themes: seq<Theme>)
    ensures |themes| == |rows|
    ensures forall i :: 0 <= i < |rows| ==> themes[i] == Theme(firstId + i, rows[i].themeName)
  {
    seq(|rows|, i requires 0 <= i < |rows| => Theme(firstId + i, rows[i].themeName))
  }

  /** One more row gives one more theme, numbered after the others. */
  lemma NewThemesStep(firstId: int, rows: seq<ThemeFile>, row: ThemeFile)
    ensures NewThemes(firstId, rows + [row]) == NewThemes(firstId, rows) + [Theme(firstId + |rows|, row.themeName)]
  {
  }

  /** Committing the staged rows appends one theme per row, named as its
      cell and numbered in row order, and touches no other table. */
  lemma {:induction false} ThemeChangesAdd(db: Db, rows: seq<ThemeFile>)
    ensures ApplyAll(db, ThemeChanges(rows))
            == db.(themes := db.themes + NewThemes(db.nextId, rows), nextId := db.nextId + |rows|)
    decreases |rows|
  {
    if rows == [] {
      assert db.themes + NewThemes(db.nextId, rows) == db.themes;
    } else {
      var init := rows[..|rows| - 1];
      var last := rows[|rows| - 1];
      assert rows == init + [last];
      ThemeChangesStep([], init, last);
      ThemeChangesAdd(db, init);
      ApplyAllAppend(db, ThemeChanges(init), AddTheme(Theme(0, last.themeName)));
      NewThemesStep(db.nextId, init, last);
    }
  }

  /** What `ImportFileAsync` does to a unit of work in state `st` whose
      commits fail when `fails` holds, and what it hands back. */
  function ThemeImportEffect(st: Staging, upload: Upload, fields: seq<string>, fails: bool)
    : (r: (Staging, ImportOutcome<ThemeFile>))
    requires |fields| <= 26
    ensures OpenSheet(upload, ThemesSheet, ThemesSheet, fields).Refused? ==>
      r == (Staging(st.saved, []),
            Returned(ReturnError(ValidationError, OpenSheet(upload, ThemesSheet, ThemesSheet, fields).reason.Message())))
    ensures OpenSheet(upload, ThemesSheet, ThemesSheet, fields).NoSuchSheet? ==>
      r == (st, Thrown(MissingSheetException))
    ensures OpenSheet(upload, ThemesSheet, ThemesSheet, fields).Opened? ==>
      var s := ScanThemes(OpenSheet(upload, ThemesSheet, ThemesSheet, fields).sheet, ThemeNames(st.saved));
      (s.end.Stopped? ==>
         r == (Staging(st.saved, []), Returned(ReturnError(ValidationError, s.end.message))))
      && (s.end.Completed? && fails ==>
         r == (Staging(st.saved, st.pending + ThemeChanges(s.rows)), Thrown(CommitException)))
      && (s.end.Completed? && !fails ==>
         r.1 == Returned(ReturnData(Some(s.rows)))
         && r.0.pending == []
         && r.0.saved == Committed(st).(themes := Committed(st).themes + NewThemes(Committed(st).nextId, s.rows),
                                        nextId := Committed(st).nextId + |s.rows|))
  {
    match OpenSheet(upload, ThemesSheet, ThemesSheet, fields)
    case Refused(reason) => (Staging(st.saved, []), Returned(ReturnError(ValidationError, reason.Message())))
    case NoSuchSheet => (st, Thrown(MissingSheetException))
    case Opened(ws) =>
      var s := ScanThemes(ws, ThemeNames(st.saved));
      if s.end.Stopped? then (Staging(st.saved, []), Returned(ReturnError(ValidationError, s.end.message)))
      else if fails then (Staging(st.saved, st.pending + ThemeChanges(s.rows)), Thrown(CommitException))
      else
        ApplyAllConcat(st.saved, st.pending, ThemeChanges(s.rows));
        ThemeChangesAdd(Committed(st), s.rows);
        (Staging(ApplyAll(st.saved, st.pending + ThemeChanges(s.rows)), []), Returned(ReturnData(Some(s.rows))))
  }

  /** All or nothing: unless the import succeeds, the saved tables are as
      they were; when it succeeds, every row of the sheet became a theme. */
  lemma ThemeImportAllOrNothing(st: Staging, upload: Upload, fields: seq<string>, fails: bool)
    requires |fields| <= 26
    ensures var r := ThemeImportEffect(st, upload, fields, fails);
      !(r.1.Returned? && r.1.result.IsSuccess()) ==> r.0.saved == st.saved
    ensures var r := ThemeImportEffect(st, upload, fields, fails);
      r.1.Returned? && r.1.result.IsSuccess() ==>
        r.1.result.transferredData.Some?
        && |r.0.saved.themes| == |Committed(st).themes| + |r.1.result.transferredData.value|
  {
    var opening := OpenSheet(upload, ThemesSheet, ThemesSheet, fields);
    if opening.Opened? {
      ScanThemesMeaning(opening.sheet, ThemeNames(st.saved));
    }
  }

  /** The foreach of `IsValueValid` that collects the saved theme names. */
  method LoadThemeNames(db: Db) returns (names: seq<string>)
    ensures names == ThemeNames(db)
  {
    names := [];
    for i := 0 to |db.themes|
      invariant names == ThemeNames(db)[..i]
    {
      names := names + [db.themes[i].name];
    }
  }

  /** One pass of the loop body of `ImportFileAsync`, up to staging the
      theme: the saved names are read again and row `row` is judged. */
  method JudgeThemeRow(ws: Worksheet, row: nat, db: Db, ghost verdicts: nat -> Verdict<ThemeFile>)
    returns (verdict: Verdict<ThemeFile>)
    requires JudgesThemeRows(verdicts, ws, ThemeNames(db))
    ensures verdict == verdicts(row) && !verdict.Crash?
  {
    var line := ThemeFile(CellText(ws, 'A', row));
    var themes := LoadThemeNames(db);
    var error := ThemeRowError(themes, line.themeName, row);
    if error.Some? {
      verdict := Refuse(error.value);
    } else {
      verdict := Accept(line);
    }
    assert verdict == ThemeVerdict(ws, ThemeNames(db), row);
  }

  /** Staging one more row appends its addition, after whatever was staged
      before. */
  lemma ThemeChangesStep(staged: seq<Change>, rows: seq<ThemeFile>, row: ThemeFile)
    ensures ThemeChanges(rows + [row]) == ThemeChanges(rows) + [AddTheme(Theme(0, row.themeName))]
    ensures staged + ThemeChanges(rows + [row]) == (staged + ThemeChanges(rows)) + [AddTheme(Theme(0, row.themeName))]
  {
    assert (rows + [row])[..|rows|] == rows;
  }

  /** The row loop of `ImportFileAsync`: stages one theme per row until the
      first blank row, or stops at the first refused row with its message.
      The saved theme names are read again for every row. */
  method StageThemes(uow: UnitOfWork, themesSheet: Worksheet, ghost verdicts: nat -> Verdict<ThemeFile>)
    returns (refusal: Option<string>, importedThemes: seq<ThemeFile>, ghost end: ScanEnd)
    requires JudgesThemeRows(verdicts, themesSheet, ThemeNames(uow.saved))
    modifies uow
    ensures uow.saved == old(uow.saved)
    ensures uow.pending == old(uow.pending) + ThemeChanges(importedThemes)
    ensures ScanRows(themesSheet, ThemeColumns, verdicts, 2) == Scan(importedThemes, end)
    ensures refusal == (if end.Stopped? then Some(end.message) else None)
  {
    ghost var scan := ScanRows(themesSheet, ThemeColumns, verdicts, 2);
    importedThemes := [];
    var rowCounter: nat := 2;
    while !IsBlankRow(themesSheet, ThemeColumns, rowCounter)
      invariant uow.saved == old(uow.saved)
      invariant uow.pending == old(uow.pending) + ThemeChanges(importedThemes)
      invariant scan == Behind(importedThemes, ScanRows(themesSheet, ThemeColumns, verdicts, rowCounter))
      decreases themesSheet.lastRow + 1 - rowCounter
    {
      NonBlankRowIsUsed(themesSheet, ThemeColumns, rowCounter);
      var verdict := JudgeThemeRow(themesSheet, rowCounter, uow.saved, verdicts);
      if !verdict.Accept? {
        ScanStops(themesSheet, ThemeColumns, verdicts, rowCounter, importedThemes);
        return Some(verdict.message), importedThemes, Stopped(rowCounter, verdict.message);
      }
      var line := verdict.accepted;
      ScanAccepts(themesSheet, ThemeColumns, verdicts, rowCounter, importedThemes);
      ThemeChangesStep(old(uow.pending), importedThemes, line);
      importedThemes := importedThemes + [line];
      uow.Add(AddTheme(Theme(0, line.themeName)));
      rowCounter := rowCounter + 1;
    }
    ScanCompletes(themesSheet, ThemeColumns, verdicts, rowCounter, importedThemes);
    return None, importedThemes, Completed;
  }

  /** `ImportFileAsync`: a refused file or row rolls back and is reported as
      a validation error; the commit comes after the handlers, so a refused
      commit escapes as an exception. */
  method ImportThemes(uow: UnitOfWork, upload: Upload, fields: seq<string>) returns (r: ImportOutcome<ThemeFile>)
    requires |fields| <= 26
    modifies uow
    ensures (uow.State(), r) == ThemeImportEffect(old(uow.State()), upload, fields, uow.commitFails)
  {
    var opening := ValidateFile(upload, ThemesSheet, ThemesSheet, fields);
    if opening.Refused? {
      uow.Rollback();
      return Returned(ReturnError(ValidationError, opening.reason.Message()));
    }
    if opening.NoSuchSheet? {
      return Thrown(MissingSheetException);
    }
    ghost var verdicts := ThemeVerdicts(opening.sheet, ThemeNames(uow.saved));
    assert JudgesThemeRows(verdicts, opening.sheet, ThemeNames(uow.saved));
    var refusal, importedThemes, end := StageThemes(uow, opening.sheet, verdicts);
    if refusal.Some? {
      uow.Rollback();
      return Returned(ReturnError(ValidationError, refusal.value));
    }
    var ok := uow.Commit();
    if !ok {
      return Thrown(CommitException);
    }
    return Returned(ReturnData(Some(importedThemes)));
  }

  /** A name that is not saved yet may stand in two rows of one sheet: both
      rows pass and both are staged. */
  lemma RepeatedNameInOneSheetPasses(name: string)
    requires name != "" && |name| <= MaxThemeLength
    ensures var ws := Sheet(map[Coord('A', 2) := name, Coord('A', 3) := name], 3);
      ScanThemes(ws, []) == Scan([ThemeFile(name), ThemeFile(name)], Completed)
  {
    var ws := Sheet(map[Coord('A', 2) := name, Coord('A', 3) := name], 3);
    var verdicts := ThemeVerdicts(ws, []);
    assert CellText(ws, ThemeColumns[0], 3) == name && CellText(ws, ThemeColumns[0], 2) == name;
    assert IsBlankRow(ws, ThemeColumns, 4);
    ScanRowsEnds(ws, ThemeColumns, verdicts, 4);
    ScanRowsStep(ws, ThemeColumns, verdicts, 3);
    ScanRowsStep(ws, ThemeColumns, verdicts, 2);
  }
}
