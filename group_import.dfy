/** The student group import: a worksheet "Groups" with a course id, a name,
    a start and a finish date in columns B to E of every row from row 2 on.
    Each row is converted, checked against the saved courses and groups and
    staged as a group; the first failing check ends the import with that
    check's message and rolls everything back, and only a sheet read to its
    first blank row is committed. */
module GroupImport {
  import opened Results
  import opened Text
  import opened Sheets
  import opened Store

  const GroupsSheet: string := "Groups"
  /** The sheet name the CSV conversion gives its one sheet. */
  const ConvertedSheetName: string := "Themes"
  /** The columns `IsEndOfFile` looks at; column A is not among them. */
  const GroupColumns: seq<char> := ['B', 'C', 'D', 'E']

  const FormatPrefix: string := "The format of the inputed data is incorrect.\n"
  const DbPrefix: string := "Inputed data is incorrect.\n"

  /** One data row as read: the course id as text, the name, and the two
      dates as the converter gave them. */
  datatype StudentGroupFile = StudentGroupFile(courseId: string, name: string, startDate: int, finishDate: int)

  /** A row that passed: the line read and the group staged for it. */
  datatype GroupRow = GroupRow(line: StudentGroupFile, group: StudentGroup)

  /** What a conversion from text (`Convert.ToDateTime`, `Convert.ToInt64`)
      gives: a value, or the message of the `FormatException` it throws. A
      date is a number that orders as the dates do; a number is exact, and
      the range of the target type is checked separately. */
  datatype Parsed = Value(value: int) | Unparsable(message: string)

  /** The exception `ValidateFileValue` throws for a line. */
  datatype Failure = FormatFailure(message: string) | DbFailure(message: string) | Uncaught(exception: string)

  predicate IsInt64(x: int) { -0x8000_0000_0000_0000 <= x < 0x8000_0000_0000_0000 }

  function CourseIdEmptyMessage(row: nat): string
  {
    "CourseId field shouldn't be empty.\nProblem was occured in col B, row " + NatToString(row)
  }

  function NameEmptyMessage(row: nat): string
  {
    "Name field shouldn't be empty.\nProblem was occured in col C, row " + NatToString(row)
  }

  function DatesOrderMessage(row: nat): string
  {
    "StartDate must be less than FinishDate.\nProblem was occured in col D/E, row " + NatToString(row) + "."
  }

  function CourseMissingMessage(courseId: string, row: nat): string
  {
    "Course with id " + courseId + " doesn't exist.\nProblem was occured in col B, row " + NatToString(row) + "."
  }

  function GroupNameTakenMessage(name: string, row: nat): string
  {
    "Group with name " + name + " already exists.\nProblem was occured in col C, row " + NatToString(row) + "."
  }

  /** `ValidateFileValue`: the checks in their order, the first failure
      being the one thrown. The course ids and group names are those saved. */
  function CheckGroupLine(line: StudentGroupFile, row: nat, db: Db, parseInteger: string -> Parsed): (r: Option<Failure>)
    ensures r.None? <==>
      RemoveAll(line.courseId, ' ') != "" && line.name != "" && line.startDate <= line.finishDate
      && parseInteger(line.courseId).Value? && IsInt64(parseInteger(line.courseId).value)
      && parseInteger(line.courseId).value in CourseIds(db) && !GroupNameExists(db, line.name)
    ensures RemoveAll(line.courseId, ' ') == "" ==> r == Some(FormatFailure(CourseIdEmptyMessage(row)))
    ensures RemoveAll(line.courseId, ' ') != "" && line.name == "" ==> r == Some(FormatFailure(NameEmptyMessage(row)))
    ensures RemoveAll(line.courseId, ' ') != "" && line.name != "" && line.startDate > line.finishDate ==>
      r == Some(FormatFailure(DatesOrderMessage(row)))
    ensures RemoveAll(line.courseId, ' ') != "" && line.name != "" && line.startDate <= line.finishDate ==>
      match parseInteger(line.courseId)
      case Unparsable(message) => r == Some(FormatFailure(message))
      case Value(id) =>
        (!IsInt64(id) ==> r == Some(Uncaught(OverflowException)))
        && (IsInt64(id) && id !in CourseIds(db) ==> r == Some(DbFailure(CourseMissingMessage(line.courseId, row))))
        && (IsInt64(id) && id in CourseIds(db) && GroupNameExists(db, line.name) ==>
              r == Some(DbFailure(GroupNameTakenMessage(line.name, row))))
  {
    if RemoveAll(line.courseId, ' ') == "" then Some(FormatFailure(CourseIdEmptyMessage(row)))
    else if line.name == "" then Some(FormatFailure(NameEmptyMessage(row)))
    else if line.startDate > line.finishDate then Some(FormatFailure(DatesOrderMessage(row)))
    else
      match parseInteger(line.courseId)
      case Unparsable(message) => Some(FormatFailure(message))
      case Value(id) =>
        if !IsInt64(id) then Some(Uncaught(OverflowException))
        else if id !in CourseIds(db) then Some(DbFailure(CourseMissingMessage(line.courseId, row)))
        else if GroupNameExists(db, line.name) then Some(DbFailure(GroupNameTakenMessage(line.name, row)))
        else None
  }

  /** The message a handler reports for a failure it catches. */
  function Reported(failure: Failure): string
    requires !failure.Uncaught?
  {
    if failure.FormatFailure? then FormatPrefix + failure.message else DbPrefix + failure.message
  }

  /** One pass of the loop body: the two date conversions, the checks, and
      the `Convert.ToInt32` of the course id for the staged group. */
  function GroupRowVerdict(ws: Worksheet, row: nat, db: Db, parseDate: string -> Parsed,
                           parseInteger: string -> Parsed): Verdict<GroupRow>
  {
    var courseId := CellText(ws, 'B', row);
    var name := CellText(ws, 'C', row);
    var start := parseDate(CellText(ws, 'D', row));
    if start.Unparsable? then Refuse(Reported(FormatFailure(start.message)))
    else
      var finish := parseDate(CellText(ws, 'E', row));
      if finish.Unparsable? then Refuse(Reported(FormatFailure(finish.message)))
      else
        var line := StudentGroupFile(courseId, name, start.value, finish.value);
        var failure := CheckGroupLine(line, row, db, parseInteger);
        if failure.Some? then
          if failure.value.Uncaught? then Crash(failure.value.exception) else Refuse(Reported(failure.value))
        else
          var id := parseInteger(courseId).value;
          if !IsInt32(id) then Crash(OverflowException)
          else Accept(GroupRow(line, StudentGroup(0, id, name, line.startDate, line.finishDate)))
  }

  /** An accepted row is the line its cells B to E give, it passed every
      check, its course exists and its name is free, and the group staged
      for it carries the course id converted to a 32-bit integer. */
  lemma AcceptedRowIsValid(ws: Worksheet, row: nat, db: Db, parseDate: string -> Parsed,
                           parseInteger: string -> Parsed)
    ensures var v := GroupRowVerdict(ws, row, db, parseDate, parseInteger);
      v.Accept? ==>
      var line := v.accepted.line;
      line.courseId == CellText(ws, 'B', row) && line.name == CellText(ws, 'C', row)
      && parseDate(CellText(ws, 'D', row)) == Value(line.startDate)
      && parseDate(CellText(ws, 'E', row)) == Value(line.finishDate)
      && CheckGroupLine(line, row, db, parseInteger).None?
      && v.accepted.group == StudentGroup(0, parseInteger(line.courseId).value, line.name, line.startDate, line.finishDate)
      && IsInt32(v.accepted.group.courseId)
      && CourseExists(db, v.accepted.group.courseId) && !GroupNameExists(db, line.name)
      && line.startDate <= line.finishDate
  {
    var v := GroupRowVerdict(ws, row, db, parseDate, parseInteger);
    if v.Accept? {
      CourseIdListed(db, v.accepted.group.courseId);
    }
  }

  lemma CourseIdListed(db: Db, id: int)
    requires id in CourseIds(db)
    ensures CourseExists(db, id)
  {
    var i :| 0 <= i < |CourseIds(db)| && CourseIds(db)[i] == id;
    assert db.courses[i] in db.courses;
  }

  function GroupVerdicts(ws: Worksheet, db: Db, parseDate: string -> Parsed, parseInteger: string -> Parsed)
    : nat -> Verdict<GroupRow>
  {
    (row: nat) => GroupRowVerdict(ws, row, db, parseDate, parseInteger)
  }

  /** The loop of `ImportFileAsync` over the sheet from row 2, each row
      judged against the same saved tables. */
  function ScanGroups(ws: Worksheet, db: Db, parseDate: string -> Parsed, parseInteger: string -> Parsed): Scan<GroupRow>
  {
    ScanRows(ws, GroupColumns, GroupVerdicts(ws, db, parseDate, parseInteger), 2)
  }

  /** Every group the scan accepts is the line of its row, in row order; it
      passed every check, its course exists, its name is not taken and it
      does not finish before it starts. A scan that stops or crashes does so
      at the row right after them. */
  lemma ScanGroupsMeaning(ws: Worksheet, db: Db, parseDate: string -> Parsed, parseInteger: string -> Parsed)
    ensures var s := ScanGroups(ws, db, parseDate, parseInteger);
      (forall r :: 2 <= r < 2 + |s.rows| ==> !IsBlankRow(ws, GroupColumns, r))
      && (forall i :: 0 <= i < |s.rows| ==>
         s.rows[i].line.courseId == CellText(ws, 'B', 2 + i) && s.rows[i].line.name == CellText(ws, 'C', 2 + i)
         && CheckGroupLine(s.rows[i].line, 2 + i, db, parseInteger).None?
         && s.rows[i].group.courseId in CourseIds(db) && IsInt32(s.rows[i].group.courseId)
         && !GroupNameExists(db, s.rows[i].group.name)
         && s.rows[i].group.startDate <= s.rows[i].group.finishDate)
      && (s.end.Completed? ==> IsBlankRow(ws, GroupColumns, 2 + |s.rows|))
      && (s.end.Stopped? ==>
            s.end.row == 2 + |s.rows| && GroupRowVerdict(ws, s.end.row, db, parseDate, parseInteger) == Refuse(s.end.message))
      && (s.end.Crashed? ==>
            s.end.row == 2 + |s.rows| && GroupRowVerdict(ws, s.end.row, db, parseDate, parseInteger) == Crash(s.end.exception))
  {
    var verdicts := GroupVerdicts(ws, db, parseDate, parseInteger);
    assert JudgesGroupRows(verdicts, ws, db, parseDate, parseInteger);
    JudgedScanMeaning(ws, db, parseDate, parseInteger, verdicts);
  }

  /** `ScanGroupsMeaning` for any function that judges rows as the loop
      body does. */
  lemma JudgedScanMeaning(ws: Worksheet, db: Db, parseDate: string -> Parsed, parseInteger: string -> Parsed,
                          verdicts: nat -> Verdict<GroupRow>)
    requires JudgesGroupRows(verdicts, ws, db, parseDate, parseInteger)
    ensures var s := ScanRows(ws, GroupColumns, verdicts, 2);
      (forall r :: 2 <= r < 2 + |s.rows| ==> !IsBlankRow(ws, GroupColumns, r))
      && (forall i :: 0 <= i < |s.rows| ==>
         s.rows[i].line.courseId == CellText(ws, 'B', 2 + i) && s.rows[i].line.name == CellText(ws, 'C', 2 + i)
         && CheckGroupLine(s.rows[i].line, 2 + i, db, parseInteger).None?
         && s.rows[i].group.courseId in CourseIds(db) && IsInt32(s.rows[i].group.courseId)
         && !GroupNameExists(db, s.rows[i].group.name)
         && s.rows[i].group.startDate <= s.rows[i].group.finishDate)
      && (s.end.Completed? ==> IsBlankRow(ws, GroupColumns, 2 + |s.rows|))
      && (s.end.Stopped? ==>
            s.end.row == 2 + |s.rows| && GroupRowVerdict(ws, s.end.row, db, parseDate, parseInteger) == Refuse(s.end.message))
      && (s.end.Crashed? ==>
            s.end.row == 2 + |s.rows| && GroupRowVerdict(ws, s.end.row, db, parseDate, parseInteger) == Crash(s.end.exception))
  {
    var s := ScanRows(ws, GroupColumns, verdicts, 2);
    ScanRowsMeaning(ws, GroupColumns, verdicts, 2);
    forall i | 0 <= i < |s.rows|
      ensures s.rows[i].line.courseId == CellText(ws, 'B', 2 + i) && s.rows[i].line.name == CellText(ws, 'C', 2 + i)
      ensures CheckGroupLine(s.rows[i].line, 2 + i, db, parseInteger).None?
      ensures s.rows[i].group.courseId in CourseIds(db) && IsInt32(s.rows[i].group.courseId)
      ensures !GroupNameExists(db, s.rows[i].group.name)
      ensures s.rows[i].group.startDate <= s.rows[i].group.finishDate
    {
      assert verdicts(2 + i) == Accept(s.rows[i]);
      AcceptedRowIsValid(ws, 2 + i, db, parseDate, parseInteger);
    }
    if !s.end.Completed? {
      assert verdicts(s.end.row) == GroupRowVerdict(ws, s.end.row, db, parseDate, parseInteger);
    }
  }

  /** Column A takes no part in the import: two sheets that agree outside
      column A are scanned alike. */
  lemma ColumnAIgnored(ws1: Worksheet, ws2: Worksheet, db: Db, parseDate: string -> Parsed, parseInteger: string -> Parsed)
    requires forall c: char, r: int :: c != 'A' ==> CellText(ws1, c, r) == CellText(ws2, c, r)
    ensures ScanGroups(ws1, db, parseDate, parseInteger) == ScanGroups(ws2, db, parseDate, parseInteger)
  {
    var verdicts1 := GroupVerdicts(ws1, db, parseDate, parseInteger);
    var verdicts2 := GroupVerdicts(ws2, db, parseDate, parseInteger);
    assert forall i :: 0 <= i < |GroupColumns| ==> GroupColumns[i] != 'A';
    forall r: nat
      ensures IsBlankRow(ws1, GroupColumns, r) == IsBlankRow(ws2, GroupColumns, r)
      ensures verdicts1(r) == verdicts2(r)
    {
      assert CellText(ws1, 'B', r) == CellText(ws2, 'B', r) && CellText(ws1, 'C', r) == CellText(ws2, 'C', r);
      assert CellText(ws1, 'D', r) == CellText(ws2, 'D', r) && CellText(ws1, 'E', r) == CellText(ws2, 'E', r);
    }
    ScanRowsAgree(ws1, ws2, GroupColumns, verdicts1, verdicts2, 2);
  }

  /** The lines read for the accepted rows. */
  function LinesOf(rows: seq<GroupRow>): (lines: seq<StudentGroupFile>)
    ensures |lines| == |rows|
    ensures forall i :: 0 <= i < |rows| ==> lines[i] == rows[i].line
  {
    seq(|rows|, i requires 0 <= i < |rows| => rows[i].line)
  }

  /** The staged additions for the accepted rows, in row order. */
  function GroupChanges(rows: seq<GroupRow>): (changes: seq<Change>)
    decreases |rows|
  {
    if rows == [] then []
    else GroupChanges(rows[..|rows| - 1]) + [AddGroup(rows[|rows| - 1].group)]
  }

  /** One more accepted row stages one more group, after the others and
      after whatever was staged before them. */
  lemma GroupChangesStep(staged: seq<Change>, rows: seq<GroupRow>, row: GroupRow)
    ensures GroupChanges(rows + [row]) == GroupChanges(rows) + [AddGroup(row.group)]
    ensures staged + GroupChanges(rows + [row]) == (staged + GroupChanges(rows)) + [AddGroup(row.group)]
  {
    assert (rows + [row])[..|rows|] == rows;
  }

  /** The groups saved for the rows when the next identity is `firstId`. */
  function NewGroups(firstId: int, rows: seq<GroupRow>): (groups: seq<StudentGroup>)
    ensures |groups| == |rows|
    ensures forall i :: 0 <= i < |rows| ==> groups[i] == rows[i].group.(id := firstId + i)
  {
    seq(|rows|, i requires 0 <= i < |rows| => rows[i].group.(id := firstId + i))
  }

  /** Committing the staged rows appends one group per row, in row order,
      and touches no other table. */
  lemma {:induction false} GroupChangesAdd(db: Db, rows: seq<GroupRow>)
    ensures ApplyAll(db, GroupChanges(rows))
            == db.(groups := db.groups + NewGroups(db.nextId, rows), nextId := db.nextId + |rows|)
    decreases |rows|
  {
    if rows == [] {
      assert db.groups + NewGroups(db.nextId, rows) == db.groups;
    } else {
      var init := rows[..|rows| - 1];
      var last := rows[|rows| - 1];
      GroupChangesAdd(db, init);
      ApplyAllAppend(db, GroupChanges(init), AddGroup(last.group));
      assert db.groups + NewGroups(db.nextId, rows)
             == (db.groups + NewGroups(db.nextId, init)) + [last.group.(id := db.nextId + |init|)];
    }
  }

  /** What `ImportFileAsync` does to a unit of work in state `st` whose
      commits fail when `fails` holds, and what it hands back. An exception
      no handler catches leaves the staged rows staged. */
  function GroupImportEffect(st: Staging, upload: Upload, fields: seq<string>, parseDate: string -> Parsed,
                             parseInteger: string -> Parsed, fails: bool): (r: (Staging, ImportOutcome<StudentGroupFile>))
    requires |fields| <= 26
    ensures OpenSheet(upload, ConvertedSheetName, GroupsSheet, fields).Refused? ==>
      r == (Staging(st.saved, []), Returned(ReturnError(ValidationError,
              FormatPrefix + OpenSheet(upload, ConvertedSheetName, GroupsSheet, fields).reason.Message())))
    ensures OpenSheet(upload, ConvertedSheetName, GroupsSheet, fields).NoSuchSheet? ==>
      r == (st, Thrown(MissingSheetException))
    ensures OpenSheet(upload, ConvertedSheetName, GroupsSheet, fields).Opened? ==>
      var s := ScanGroups(OpenSheet(upload, ConvertedSheetName, GroupsSheet, fields).sheet, st.saved, parseDate, parseInteger);
      (s.end.Stopped? ==>
         r == (Staging(st.saved, []), Returned(ReturnError(ValidationError, s.end.message))))
      && (s.end.Crashed? ==>
         r == (Staging(st.saved, st.pending + GroupChanges(s.rows)), Thrown(s.end.exception)))
      && (s.end.Completed? && fails ==>
         r == (Staging(st.saved, st.pending + GroupChanges(s.rows)), Thrown(CommitException)))
      && (s.end.Completed? && !fails ==>
         r.1 == Returned(ReturnData(Some(LinesOf(s.rows))))
         && r.0.pending == []
         && r.0.saved == Committed(st).(groups := Committed(st).groups + NewGroups(Committed(st).nextId, s.rows),
                                        nextId := Committed(st).nextId + |s.rows|))
  {
    match OpenSheet(upload, ConvertedSheetName, GroupsSheet, fields)
    case Refused(reason) => (Staging(st.saved, []), Returned(ReturnError(ValidationError, FormatPrefix + reason.Message())))
    case NoSuchSheet => (st, Thrown(MissingSheetException))
    case Opened(ws) =>
      var s := ScanGroups(ws, st.saved, parseDate, parseInteger);
      match s.end
      case Stopped(_, message) => (Staging(st.saved, []), Returned(ReturnError(ValidationError, message)))
      case Crashed(_, exception) => (Staging(st.saved, st.pending + GroupChanges(s.rows)), Thrown(exception))
      case Completed =>
        if fails then (Staging(st.saved, st.pending + GroupChanges(s.rows)), Thrown(CommitException))
        else
          ApplyAllConcat(st.saved, st.pending, GroupChanges(s.rows));
          GroupChangesAdd(Committed(st), s.rows);
          (Staging(ApplyAll(st.saved, st.pending + GroupChanges(s.rows)), []), Returned(ReturnData(Some(LinesOf(s.rows)))))
  }

  /** All or nothing: unless the import succeeds, the saved tables are as
      they were; when it succeeds, one group per line returned was saved. */
  lemma GroupImportAllOrNothing(st: Staging, upload: Upload, fields: seq<string>, parseDate: string -> Parsed,
                                parseInteger: string -> Parsed, fails: bool)
    requires |fields| <= 26
    ensures var r := GroupImportEffect(st, upload, fields, parseDate, parseInteger, fails);
      !(r.1.Returned? && r.1.result.IsSuccess()) ==> r.0.saved == st.saved
    ensures var r := GroupImportEffect(st, upload, fields, parseDate, parseInteger, fails);
      r.1.Returned? && r.1.result.IsSuccess() ==>
        r.1.result.transferredData.Some?
        && |r.0.saved.groups| == |Committed(st).groups| + |r.1.result.transferredData.value|
  {
  }

  /** A `.csv` upload is converted into a workbook whose one sheet is named
      "Themes", so looking up "Groups" throws: no CSV file of groups is ever
      imported, and nothing is staged or saved. */
  lemma CsvGroupUploadThrows(st: Staging, upload: Upload, fields: seq<string>, parseDate: string -> Parsed,
                             parseInteger: string -> Parsed, fails: bool)
    requires |fields| <= 26
    requires FileExtension(upload.fileName) == CsvExtension
    ensures GroupImportEffect(st, upload, fields, parseDate, parseInteger, fails) == (st, Thrown(MissingSheetException))
  {
    assert GroupsSheet !in LoadWorkbook(upload, ConvertedSheetName).value;
  }

  /** `verdicts` judges every row as the loop body of `ImportFileAsync`
      does against the saved tables `db`. */
  ghost predicate JudgesGroupRows(verdicts: nat -> Verdict<GroupRow>, ws: Worksheet, db: Db,
                                  parseDate: string -> Parsed, parseInteger: string -> Parsed)
  {
    forall row: nat {:trigger GroupRowVerdict(ws, row, db, parseDate, parseInteger)} ::
      verdicts(row) == GroupRowVerdict(ws, row, db, parseDate, parseInteger)
  }

  /** One pass of the loop body of `ImportFileAsync`, up to staging the
      group: the verdict on row `row`. */
  method JudgeGroupRow(ws: Worksheet, row: nat, db: Db, parseDate: string -> Parsed, parseInteger: string -> Parsed,
                       ghost verdicts: nat -> Verdict<GroupRow>) returns (verdict: Verdict<GroupRow>)
    requires JudgesGroupRows(verdicts, ws, db, parseDate, parseInteger)
    ensures verdict == verdicts(row)
  {
    verdict := GroupRowVerdict(ws, row, db, parseDate, parseInteger);
  }

  /** The row loop of `ImportFileAsync`: stages one group per accepted row
      until the first blank row or the first row that is not accepted. */
  method StageGroups(uow: UnitOfWork, groupsSheet: Worksheet, parseDate: string -> Parsed, parseInteger: string -> Parsed,
                     ghost verdicts: nat -> Verdict<GroupRow>)
    returns (end: ScanEnd, importedGroups: seq<GroupRow>)
    requires JudgesGroupRows(verdicts, groupsSheet, uow.saved, parseDate, parseInteger)
    modifies uow
    ensures uow.saved == old(uow.saved)
    ensures uow.pending == old(uow.pending) + GroupChanges(importedGroups)
    ensures ScanRows(groupsSheet, GroupColumns, verdicts, 2) == Scan(importedGroups, end)
  {
    ghost var scan := ScanRows(groupsSheet, GroupColumns, verdicts, 2);
    importedGroups := [];
    var rowCounter: nat := 2;
    while !IsBlankRow(groupsSheet, GroupColumns, rowCounter)
      invariant uow.saved == old(uow.saved)
      invariant uow.pending == old(uow.pending) + GroupChanges(importedGroups)
      invariant scan == Behind(importedGroups, ScanRows(groupsSheet, GroupColumns, verdicts, rowCounter))
      decreases groupsSheet.lastRow + 1 - rowCounter
    {
      NonBlankRowIsUsed(groupsSheet, GroupColumns, rowCounter);
      var verdict := JudgeGroupRow(groupsSheet, rowCounter, uow.saved, parseDate, parseInteger, verdicts);
      if !verdict.Accept? {
        ScanStops(groupsSheet, GroupColumns, verdicts, rowCounter, importedGroups);
        if verdict.Refuse? {
          return Stopped(rowCounter, verdict.message), importedGroups;
        }
        return Crashed(rowCounter, verdict.exception), importedGroups;
      }
      var row := verdict.accepted;
      ScanAccepts(groupsSheet, GroupColumns, verdicts, rowCounter, importedGroups);
      GroupChangesStep(old(uow.pending), importedGroups, row);
      importedGroups := importedGroups + [row];
      uow.Add(AddGroup(row.group));
      rowCounter := rowCounter + 1;
    }
    ScanCompletes(groupsSheet, GroupColumns, verdicts, rowCounter, importedGroups);
    return Completed, importedGroups;
  }

  /** `ImportFileAsync`: a refused file or row rolls back and is reported as
      a validation error with the handler's prefix; an overflow, a missing
      sheet or a refused commit escapes as an exception. */
  method ImportGroups(uow: UnitOfWork, upload: Upload, fields: seq<string>, parseDate: string -> Parsed,
                      parseInteger: string -> Parsed) returns (r: ImportOutcome<StudentGroupFile>)
    requires |fields| <= 26
    modifies uow
    ensures (uow.State(), r) == GroupImportEffect(old(uow.State()), upload, fields, parseDate, parseInteger, uow.commitFails)
  {
    var opening := ValidateFile(upload, ConvertedSheetName, GroupsSheet, fields);
    if opening.Refused? {
      uow.Rollback();
      return Returned(ReturnError(ValidationError, FormatPrefix + opening.reason.Message()));
    }
    if opening.NoSuchSheet? {
      return Thrown(MissingSheetException);
    }
    ghost var verdicts := GroupVerdicts(opening.sheet, uow.saved, parseDate, parseInteger);
    assert JudgesGroupRows(verdicts, opening.sheet, uow.saved, parseDate, parseInteger);
    var end, importedGroups := StageGroups(uow, opening.sheet, parseDate, parseInteger, verdicts);
    if end.Stopped? {
      uow.Rollback();
      return Returned(ReturnError(ValidationError, end.message));
    }
    if end.Crashed? {
      return Thrown(end.exception);
    }
    var ok := uow.Commit();
    if !ok {
      return Thrown(CommitException);
    }
    return Returned(ReturnData(Some(LinesOf(importedGroups))));
  }

  /** `CheckIfExcelFile`: the extension is `.xlsx` or `.xls`. */
  function CheckIfExcelFile(fileName: string): bool
  {
    var extension := FileExtension(fileName);
    extension == ".xlsx" || extension == ".xls"
  }

  /** A name passes exactly when it ends with `.xlsx` or `.xls`, or is the
      bare word `xlsx` or `xls`. */
  lemma CheckIfExcelFileIff(fileName: string)
    ensures CheckIfExcelFile(fileName) <==>
      (fileName == "xlsx" || (|fileName| > 4 && fileName[|fileName| - 5..] == ".xlsx")
       || fileName == "xls" || (|fileName| > 3 && fileName[|fileName| - 4..] == ".xls"))
  {
    var xlsx, xls := "xlsx", "xls";
    assert |xlsx| == 4 && "." + xlsx == ".xlsx";
    assert |xls| == 3 && "." + xls == ".xls";
    FileExtensionIs(fileName, xlsx);
    FileExtensionIs(fileName, xls);
  }
}
