/** The student import: a worksheet "Students" with an e-mail, a first and a
    last name in columns A to C of every row from row 2 on. Each row is
    checked against the e-mails saved before the import; an account is
    created and committed for every accepted row as it is read, so a refused
    row ends the import with that row's messages but leaves the accounts of
    the rows before it saved. At the end every imported account with no role
    becomes a student and the active students with an imported e-mail join
    the group. */
module StudentImport {
  import opened Results
  import opened Text
  import opened Sheets
  import opened Store
  import opened Accounts
  import opened Students

  const StudentsSheet: string := "Students"
  /** The columns `IsEndOfFile` looks at. */
  const StudentColumns: seq<char> := ['A', 'B', 'C']
  /** The password and its confirmation every imported account is given. */
  const DefaultPassword: string := "changeYourPassword"

  /** One data row as read: the e-mail, the first and the last name. */
  datatype StudentFile = StudentFile(email: string, firstName: string, lastName: string)

  function GroupMissingMessage(groupId: int): string
  {
    "Group with id " + IntToString(groupId) + " doesn't exist."
  }

  const NameEmptyText: string := "Name field shouldn't be empty.\nProblem was occured in col "

  function FirstNameEmptyMessage(row: nat): string
  {
    NameEmptyText + "B, row " + NatToString(row)
  }

  function LastNameEmptyMessage(row: nat): string
  {
    NameEmptyText + "C, row " + NatToString(row)
  }

  function EmailExistsMessage(email: string, row: nat): string
  {
    "Account with email " + email + " already exists.\nProblem was occured in col A, row " + NatToString(row) + "."
  }

  /** The line the cells A, B and C of a row give. */
  function LineAt(ws: Worksheet, row: nat): StudentFile
  {
    StudentFile(CellText(ws, 'A', row), CellText(ws, 'B', row), CellText(ws, 'C', row))
  }

  /** `ValidateFileValue`: one message per failed check, in the order first
      name (col B), last name (col C), e-mail already saved (col A). */
  function StudentRowErrors(line: StudentFile, row: nat, existingEmails: seq<string>): (errors: seq<string>)
    ensures errors == [] <==> line.firstName != "" && line.lastName != "" && line.email !in existingEmails
    ensures |errors| == (if line.firstName == "" then 1 else 0) + (if line.lastName == "" then 1 else 0)
                        + (if line.email in existingEmails then 1 else 0)
    ensures line.firstName == "" ==> errors[0] == FirstNameEmptyMessage(row)
    ensures line.lastName == "" ==> errors[if line.firstName == "" then 1 else 0] == LastNameEmptyMessage(row)
    ensures line.email in existingEmails ==> errors[|errors| - 1] == EmailExistsMessage(line.email, row)
  {
    (if line.firstName == "" then [FirstNameEmptyMessage(row)] else [])
    + (if line.lastName == "" then [LastNameEmptyMessage(row)] else [])
    + (if line.email in existingEmails then [EmailExistsMessage(line.email, row)] else [])
  }

  /** A row as the loop body judges it: accepted when no check fails, or
      refused with the row's messages joined by line breaks. */
  function StudentVerdict(ws: Worksheet, existingEmails: seq<string>, row: nat): (v: Verdict<StudentFile>)
    ensures !v.Crash?
    ensures v.Accept? <==> StudentRowErrors(LineAt(ws, row), row, existingEmails) == []
    ensures v.Accept? ==> v.accepted == LineAt(ws, row)
    ensures v.Refuse? ==> v.message == Join(StudentRowErrors(LineAt(ws, row), row, existingEmails), "\n")
  {
    var errors := StudentRowErrors(LineAt(ws, row), row, existingEmails);
    if errors == [] then Accept(LineAt(ws, row)) else Refuse(Join(errors, "\n"))
  }

  function StudentVerdicts(ws: Worksheet, existingEmails: seq<string>): nat -> Verdict<StudentFile>
  {
    (row: nat) => StudentVerdict(ws, existingEmails, row)
  }

  /** The loop of `ImportFileAsync` over the sheet from row 2, every row
      checked against the same e-mails, read once before the loop. */
  function ScanStudents(ws: Worksheet, existingEmails: seq<string>): Scan<StudentFile>
  {
    ScanRows(ws, StudentColumns, StudentVerdicts(ws, existingEmails), 2)
  }

  /** The scan accepts the lines of rows 2, 3, ... in order, each with both
      names given and an e-mail not saved before the import, up to the first
      row blank in A to C; or it stops at the first other row, with that
      row's messages joined by line breaks. It never reads past that row. */
  lemma ScanStudentsMeaning(ws: Worksheet, existingEmails: seq<string>)
    ensures var s := ScanStudents(ws, existingEmails);
      !s.end.Crashed?
      && (forall i :: 0 <= i < |s.rows| ==>
            s.rows[i] == LineAt(ws, 2 + i) && s.rows[i].firstName != "" && s.rows[i].lastName != ""
            && s.rows[i].email !in existingEmails)
      && (s.end.Completed? ==> LineAt(ws, 2 + |s.rows|) == StudentFile("", "", ""))
      && (s.end.Stopped? ==>
            s.end.row == 2 + |s.rows| && StudentRowErrors(LineAt(ws, s.end.row), s.end.row, existingEmails) != []
            && s.end.message == Join(StudentRowErrors(LineAt(ws, s.end.row), s.end.row, existingEmails), "\n"))
  {
    var verdicts := StudentVerdicts(ws, existingEmails);
    assert JudgesStudentRows(verdicts, ws, existingEmails);
    JudgedScanMeaning(ws, existingEmails, verdicts);
  }

  /** `verdicts` judges every row as the loop body of `ImportFileAsync`
      does against the e-mails read before the loop. */
  ghost predicate JudgesStudentRows(verdicts: nat -> Verdict<StudentFile>, ws: Worksheet, existingEmails: seq<string>)
  {
    forall row: nat {:trigger StudentVerdict(ws, existingEmails, row)} ::
      verdicts(row) == StudentVerdict(ws, existingEmails, row)
  }

  /** `ScanStudentsMeaning` for any function that judges rows as the loop
      body does. */
  lemma JudgedScanMeaning(ws: Worksheet, existingEmails: seq<string>, verdicts: nat -> Verdict<StudentFile>)
    requires JudgesStudentRows(verdicts, ws, existingEmails)
    ensures var s := ScanRows(ws, StudentColumns, verdicts, 2);
      !s.end.Crashed?
      && (forall i :: 0 <= i < |s.rows| ==>
            s.rows[i] == LineAt(ws, 2 + i) && s.rows[i].firstName != "" && s.rows[i].lastName != ""
            && s.rows[i].email !in existingEmails)
      && (s.end.Completed? ==> LineAt(ws, 2 + |s.rows|) == StudentFile("", "", ""))
      && (s.end.Stopped? ==>
            s.end.row == 2 + |s.rows| && StudentRowErrors(LineAt(ws, s.end.row), s.end.row, existingEmails) != []
            && s.end.message == Join(StudentRowErrors(LineAt(ws, s.end.row), s.end.row, existingEmails), "\n"))
  {
    var s := ScanRows(ws, StudentColumns, verdicts, 2);
    ScanRowsMeaning(ws, StudentColumns, verdicts, 2);
    forall i | 0 <= i < |s.rows|
      ensures s.rows[i] == LineAt(ws, 2 + i) && s.rows[i].firstName != "" && s.rows[i].lastName != ""
      ensures s.rows[i].email !in existingEmails
    {
      assert verdicts(2 + i) == StudentVerdict(ws, existingEmails, 2 + i);
    }
    if s.end.Completed? {
      var row := 2 + |s.rows|;
      assert IsBlankRow(ws, StudentColumns, row);
      assert StudentColumns[0] == 'A' && StudentColumns[1] == 'B' && StudentColumns[2] == 'C';
    }
    if !s.end.Completed? {
      assert verdicts(s.end.row) == StudentVerdict(ws, existingEmails, s.end.row);
    }
  }

  /** Two rows with the same new e-mail both pass: the e-mails read before
      the loop are not extended by the rows imported. */
  lemma RepeatedEmailInOneSheetPasses(email: string, firstName: string, lastName: string)
    requires email != "" && firstName != "" && lastName != ""
    ensures var line := StudentFile(email, firstName, lastName);
      var ws := Sheet(map[Coord('A', 2) := email, Coord('B', 2) := firstName, Coord('C', 2) := lastName,
                          Coord('A', 3) := email, Coord('B', 3) := firstName, Coord('C', 3) := lastName], 3);
      ScanStudents(ws, []) == Scan([line, line], Completed)
  {
    var ws := Sheet(map[Coord('A', 2) := email, Coord('B', 2) := firstName, Coord('C', 2) := lastName,
                        Coord('A', 3) := email, Coord('B', 3) := firstName, Coord('C', 3) := lastName], 3);
    var verdicts := StudentVerdicts(ws, []);
    assert LineAt(ws, 2) == StudentFile(email, firstName, lastName) == LineAt(ws, 3);
    assert CellText(ws, StudentColumns[0], 2) == email && CellText(ws, StudentColumns[0], 3) == email;
    assert IsBlankRow(ws, StudentColumns, 4);
    ScanRowsEnds(ws, StudentColumns, verdicts, 4);
    ScanRowsStep(ws, StudentColumns, verdicts, 3);
    ScanRowsStep(ws, StudentColumns, verdicts, 2);
  }

  /** The `CreateAccountDto` built for a line. */
  function StudentAccount(line: StudentFile): CreateAccountDto
  {
    CreateAccountDto(line.email, line.firstName, line.lastName, DefaultPassword, DefaultPassword)
  }

  /** An account as `CreateAccountAsync` builds it for an imported line. */
  predicate MadeFor(a: Account, line: StudentFile, hash: string -> string)
  {
    a.email == line.email && a.firstName == line.firstName && a.lastName == line.lastName
    && a.role == NotAssigned && a.isActive && |a.salt| == SaltLength
    && a.password == HashPassword(hash, DefaultPassword, a.salt)
  }

  /** The `CreateAccountAsync` calls for the accepted lines, one after the
      other, each drawing its salt from what the ones before left of the
      random stream: the state after them, what each call returned, and the
      stream left over. A call that fails is ignored by the import. */
  function CreateAccounts(st: Staging, lines: seq<StudentFile>, draws: seq<UInt32>, hash: string -> string, fails: bool)
    : (r: (Staging, seq<Option<Account>>, seq<UInt32>))
    ensures |r.1| == |lines| && |r.2| <= |draws|
    ensures lines == [] ==> r.0 == st && r.2 == draws
    ensures lines != [] ==> r.0.pending == []
    ensures fails ==> r.0.saved == st.saved && forall i :: 0 <= i < |lines| ==> r.1[i].None?
    decreases |lines|
  {
    if lines == [] then (st, [], draws)
    else
      var before := CreateAccounts(st, lines[..|lines| - 1], draws, hash, fails);
      var after := CreateAccountEffect(before.0, StudentAccount(lines[|lines| - 1]), before.2, hash, fails);
      (after.0, before.1 + [after.1], before.2[after.2..])
  }

  /** Each call takes fifteen accepted words of the stream for its salt:
      the call for line `i` creates its account exactly when no commit fails
      and the stream accepts `15 * (i + 1)` words, and what is left accepts
      fifteen words fewer per line, or nothing. */
  lemma {:induction false} CreateAccountsDraws(st: Staging, lines: seq<StudentFile>, draws: seq<UInt32>,
                                               hash: string -> string, fails: bool)
    ensures var r := CreateAccounts(st, lines, draws, hash, fails);
      AcceptedCount(r.2) == (if AcceptedCount(draws) < SaltLength * |lines| then 0 else AcceptedCount(draws) - SaltLength * |lines|)
      && forall i :: 0 <= i < |lines| ==> (r.1[i].Some? <==> !fails && SaltLength * (i + 1) <= AcceptedCount(draws))
    decreases |lines|
  {
    if lines != [] {
      var init := lines[..|lines| - 1];
      var before := CreateAccounts(st, init, draws, hash, fails);
      var after := CreateAccountEffect(before.0, StudentAccount(lines[|lines| - 1]), before.2, hash, fails);
      var r := CreateAccounts(st, lines, draws, hash, fails);
      assert r.1 == before.1 + [after.1] && r.2 == before.2[after.2..];
      CreateAccountsDraws(st, init, draws, hash, fails);
      var total := AcceptedCount(draws);
      assert AcceptedCount(before.2) == if total < SaltLength * |init| then 0 else total - SaltLength * |init|;
      assert after.1.Some? <==> !fails && SaltLength * |lines| <= total;
      forall i | 0 <= i < |init|
        ensures r.1[i].Some? <==> !fails && SaltLength * (i + 1) <= total
      {
        assert r.1[i] == before.1[i];
      }
    }
  }

  /** Every account created for a line carries the line's e-mail and names,
      no role, a fifteen-character salt and the hash of "changeYourPassword"
      with that salt. */
  lemma {:induction false} CreatedAccountsMadeFor(st: Staging, lines: seq<StudentFile>, draws: seq<UInt32>,
                                                  hash: string -> string, fails: bool)
    ensures var r := CreateAccounts(st, lines, draws, hash, fails);
      forall i :: 0 <= i < |lines| && r.1[i].Some? ==> MadeFor(r.1[i].value, lines[i], hash)
  {
    forall i | 0 <= i < |lines|
      ensures var r := CreateAccounts(st, lines, draws, hash, fails);
        r.1[i].Some? ==> MadeFor(r.1[i].value, lines[i], hash)
    {
      CreatedAccountMadeFor(st, lines, draws, hash, fails, i);
    }
  }

  /** One index of `CreatedAccountsMadeFor`, by induction on the lines. */
  lemma {:induction false} CreatedAccountMadeFor(st: Staging, lines: seq<StudentFile>, draws: seq<UInt32>,
                                                 hash: string -> string, fails: bool, i: nat)
    requires i < |lines|
    ensures var r := CreateAccounts(st, lines, draws, hash, fails);
      r.1[i].Some? ==> MadeFor(r.1[i].value, lines[i], hash)
    decreases |lines|
  {
    var init := lines[..|lines| - 1];
    var before := CreateAccounts(st, init, draws, hash, fails);
    var r := CreateAccounts(st, lines, draws, hash, fails);
    var after := CreateAccountEffect(before.0, StudentAccount(lines[|lines| - 1]), before.2, hash, fails);
    assert r.1 == before.1 + [after.1];
    if i < |init| {
      CreatedAccountMadeFor(st, init, draws, hash, fails, i);
      assert r.1[i] == before.1[i] && lines[i] == init[i];
    } else {
      assert i == |lines| - 1 && r.1[i] == after.1;
      CreatedAccountStepMadeFor(before.0, lines[|lines| - 1], before.2, hash, fails);
    }
  }

  lemma CreatedAccountStepMadeFor(st: Staging, line: StudentFile, draws: seq<UInt32>, hash: string -> string, fails: bool)
    ensures var after := CreateAccountEffect(st, StudentAccount(line), draws, hash, fails);
      after.1.Some? ==> MadeFor(after.1.value, line, hash)
  {
  }

  /** The accounts a run of calls created, in order. */
  function Created(results: seq<Option<Account>>): seq<Account>
    decreases |results|
  {
    if results == [] then []
    else
      var last := results[|results| - 1];
      Created(results[..|results| - 1]) + (if last.Some? then [last.value] else [])
  }

  /** No table but the accounts (and the identity counter) differs. */
  predicate OnlyAccountsAdded(db: Db, db': Db)
  {
    db'.students == db.students && db'.memberships == db.memberships && db'.groups == db.groups
    && db'.themes == db.themes && db'.courses == db.courses
  }

  /** One call of `CreatedAccountsStaySaved`'s induction. */
  lemma CreatedAccountStaysSaved(st: Staging, before: (Staging, seq<Option<Account>>, seq<UInt32>),
                                 model: CreateAccountDto, hash: string -> string, fails: bool)
    requires before.0.pending == []
    requires before.0.saved.accounts == st.saved.accounts + Created(before.1)
    requires OnlyAccountsAdded(st.saved, before.0.saved)
    ensures var after := CreateAccountEffect(before.0, model, before.2, hash, fails);
      after.0.saved.accounts == st.saved.accounts + Created(before.1 + [after.1])
      && OnlyAccountsAdded(st.saved, after.0.saved)
  {
    var after := CreateAccountEffect(before.0, model, before.2, hash, fails);
    CreatedSnoc(before.1, after.1);
    if after.1.Some? {
      CreatedAccountIsSaved(before.0, model, before.2, hash, fails);
      assert Committed(before.0) == before.0.saved;
      assert after.0.saved.accounts == before.0.saved.accounts + [after.1.value];
    } else {
      assert after.0.saved == before.0.saved;
    }
  }

  lemma CreatedSnoc(results: seq<Option<Account>>, last: Option<Account>)
    ensures Created(results + [last]) == Created(results) + (if last.Some? then [last.value] else [])
  {
    assert (results + [last])[..|results|] == results;
  }

  /** `Created` keeps exactly the accounts the calls returned. */
  lemma {:induction false} CreatedMembers(results: seq<Option<Account>>)
    ensures forall a :: a in Created(results) <==> Some(a) in results
    decreases |results|
  {
    if results != [] {
      var init := results[..|results| - 1];
      CreatedMembers(init);
      assert forall x :: x in results <==> x in init || x == results[|results| - 1];
    }
  }

  /** Not all or nothing: with nothing staged beforehand, every account
      created for an accepted line is committed at once, after the accounts
      saved before, whatever happens to the rows that follow. */
  lemma {:induction false} CreatedAccountsStaySaved(st: Staging, lines: seq<StudentFile>, draws: seq<UInt32>,
                                                    hash: string -> string, fails: bool)
    requires st.pending == []
    ensures var r := CreateAccounts(st, lines, draws, hash, fails);
      r.0.saved.accounts == st.saved.accounts + Created(r.1) && OnlyAccountsAdded(st.saved, r.0.saved)
    decreases |lines|
  {
    var r := CreateAccounts(st, lines, draws, hash, fails);
    if lines == [] {
      assert st.saved.accounts + Created(r.1) == st.saved.accounts;
    } else {
      var before := CreateAccounts(st, lines[..|lines| - 1], draws, hash, fails);
      CreatedAccountsStaySaved(st, lines[..|lines| - 1], draws, hash, fails);
      var after := CreateAccountEffect(before.0, StudentAccount(lines[|lines| - 1]), before.2, hash, fails);
      CreatedAccountStaysSaved(st, before, StudentAccount(lines[|lines| - 1]), hash, fails);
      assert r.0 == after.0 && r.1 == before.1 + [after.1];
    }
  }

  /** With account identities as keys, the calls keep them keys: each
      account comes under the next identity. */
  lemma {:induction false} CreatedAccountsKeyed(st: Staging, lines: seq<StudentFile>, draws: seq<UInt32>,
                                                hash: string -> string, fails: bool)
    requires st.pending == [] && KeyedAccounts(st.saved)
    ensures KeyedAccounts(CreateAccounts(st, lines, draws, hash, fails).0.saved)
    decreases |lines|
  {
    if lines != [] {
      var before := CreateAccounts(st, lines[..|lines| - 1], draws, hash, fails);
      CreatedAccountsKeyed(st, lines[..|lines| - 1], draws, hash, fails);
      var model := StudentAccount(lines[|lines| - 1]);
      var after := CreateAccountEffect(before.0, model, before.2, hash, fails);
      CreatedAccountIsSaved(before.0, model, before.2, hash, fails);
      assert Committed(before.0) == before.0.saved;
      if after.1.Some? {
        AddAccountKeepsKeys(before.0.saved, after.1.value);
      }
    }
  }

  /** When every call created its account, `Created` lists them all, one
      per call and in the order of the calls. */
  lemma {:induction false} CreatedAllSome(results: seq<Option<Account>>)
    requires forall i :: 0 <= i < |results| ==> results[i].Some?
    ensures |Created(results)| == |results|
    ensures forall i :: 0 <= i < |results| ==> Created(results)[i] == results[i].value
    decreases |results|
  {
    if results != [] {
      CreatedAllSome(results[..|results| - 1]);
    }
  }

  /** With enough of the random stream for every salt and no failing
      commit, one account is created per line, in the order of the lines,
      after the accounts saved before. */
  lemma CreatedAccountPerLine(st: Staging, lines: seq<StudentFile>, draws: seq<UInt32>, hash: string -> string)
    requires st.pending == [] && SaltLength * |lines| <= AcceptedCount(draws)
    ensures var saved := CreateAccounts(st, lines, draws, hash, false).0.saved;
      |saved.accounts| == |st.saved.accounts| + |lines|
      && forall i :: 0 <= i < |lines| ==> MadeFor(saved.accounts[|st.saved.accounts| + i], lines[i], hash)
  {
    var r := CreateAccounts(st, lines, draws, hash, false);
    CreatedCountPerLine(st, lines, draws, hash);
    forall i | 0 <= i < |lines|
      ensures MadeFor(r.0.saved.accounts[|st.saved.accounts| + i], lines[i], hash)
    {
      CreatedAccountAtLine(st, lines, draws, hash, i);
    }
  }

  lemma CreatedCountPerLine(st: Staging, lines: seq<StudentFile>, draws: seq<UInt32>, hash: string -> string)
    requires st.pending == [] && SaltLength * |lines| <= AcceptedCount(draws)
    ensures var r := CreateAccounts(st, lines, draws, hash, false);
      r.0.saved.accounts == st.saved.accounts + Created(r.1) && |Created(r.1)| == |lines|
      && forall i :: 0 <= i < |lines| ==> r.1[i].Some? && Created(r.1)[i] == r.1[i].value
  {
    var r := CreateAccounts(st, lines, draws, hash, false);
    CreatedAccountsStaySaved(st, lines, draws, hash, false);
    CreateAccountsDraws(st, lines, draws, hash, false);
    CreatedAllSome(r.1);
  }

  /** One line of `CreatedAccountPerLine`. */
  lemma CreatedAccountAtLine(st: Staging, lines: seq<StudentFile>, draws: seq<UInt32>, hash: string -> string, i: nat)
    requires st.pending == [] && SaltLength * |lines| <= AcceptedCount(draws) && i < |lines|
    ensures var saved := CreateAccounts(st, lines, draws, hash, false).0.saved;
      |st.saved.accounts| + i < |saved.accounts| && MadeFor(saved.accounts[|st.saved.accounts| + i], lines[i], hash)
  {
    var r := CreateAccounts(st, lines, draws, hash, false);
    CreatedCountPerLine(st, lines, draws, hash);
    CreatedAccountMadeFor(st, lines, draws, hash, false, i);
    assert r.0.saved.accounts[|st.saved.accounts| + i] == r.1[i].value;
  }

  // ---- BoundStudentsToTheGroupAsync ----

  /** The e-mails of the imported lines, in order. */
  function EmailsOf(lines: seq<StudentFile>): (emails: seq<string>)
    ensures |emails| == |lines|
    ensures forall i :: 0 <= i < |lines| ==> emails[i] == lines[i].email
  {
    seq(|lines|, i requires 0 <= i < |lines| => lines[i].email)
  }

  /** The ids of the accounts with no role whose e-mail is one of `emails`,
      in table order. */
  function NotAssignedIds(accounts: seq<Account>, emails: seq<string>): (ids: seq<int>)
    ensures forall id :: id in ids <==>
      exists a :: a in accounts && a.role == NotAssigned && a.email in emails && a.id == id
    decreases |accounts|
  {
    if accounts == [] then []
    else
      var init := accounts[..|accounts| - 1];
      var last := accounts[|accounts| - 1];
      assert accounts == init + [last];
      NotAssignedIds(init, emails) + (if last.role == NotAssigned && last.email in emails then [last.id] else [])
  }

  /** A student whose account is active and has one of `emails`. */
  predicate ActiveWithEmail(db: Db, student: StudentRecord, emails: seq<string>)
  {
    var account := AccountById(db, student.accountId);
    account.Some? && account.value.isActive && account.value.email in emails
  }

  /** The ids of the active students whose e-mail is one of `emails`, in
      table order. */
  function ActiveStudentIds(db: Db, students: seq<StudentRecord>, emails: seq<string>): (ids: seq<int>)
    ensures forall id :: id in ids <==>
      exists s :: s in students && ActiveWithEmail(db, s, emails) && s.id == id
    decreases |students|
  {
    if students == [] then []
    else
      var init := students[..|students| - 1];
      var last := students[|students| - 1];
      assert students == init + [last];
      ActiveStudentIds(db, init, emails) + (if ActiveWithEmail(db, last, emails) then [last.id] else [])
  }

  /** The account `id` exists and has no role yet. */
  predicate NotAssignedIn(db: Db, id: int)
  {
    AccountById(db, id).Some? && AccountById(db, id).value.role == NotAssigned
  }

  /** From `before` to `after`, every account of `ids` that had no role has
      become a student with a student row of its own, the lookup of every
      other account is as it was, and no student row is lost. */
  ghost predicate StudentsCreatedFor(before: Db, after: Db, ids: seq<int>)
  {
    (forall s :: s in before.students ==> s in after.students)
    && (forall id :: AccountById(after, id) ==
          if id in ids && NotAssignedIn(before, id) then Some(AccountById(before, id).value.(role := Student))
          else AccountById(before, id))
    && (forall id :: id in ids && NotAssignedIn(before, id) ==> exists s :: s in after.students && s.accountId == id)
  }

  /** One more committed `CreateStudentAsync` call extends what the calls
      before it did to its own account id. */
  lemma StudentsCreatedStep(start: Db, before: Staging, ids: seq<int>, last: int)
    requires before.pending == [] && StudentsCreatedFor(start, before.saved, ids)
    ensures StudentsCreatedFor(start, CreateStudentEffect(before, last, false).0.saved, ids + [last])
  {
    var after := CreateStudentEffect(before, last, false).0.saved;
    CreateStudentTurnsAccount(before, last, false, last);
    forall id
      ensures AccountById(after, id) ==
        if id in ids + [last] && NotAssignedIn(start, id) then Some(AccountById(start, id).value.(role := Student))
        else AccountById(start, id)
    {
      CreateStudentTurnsAccount(before, last, false, id);
    }
    forall id | id in ids + [last] && NotAssignedIn(start, id)
      ensures exists s :: s in after.students && s.accountId == id
    {
      CreateStudentTurnsAccount(before, last, false, id);
      if id in ids {
        var s :| s in before.saved.students && s.accountId == id;
        assert s in after.students;
      }
    }
  }

  /** The `CreateStudentAsync` calls for the ids, one after the other; their
      results are ignored. When nothing was staged before and every commit
      goes through, each listed account with no role becomes a student. */
  function CreateStudents(st: Staging, accountIds: seq<int>, fails: bool): (r: Staging)
    ensures accountIds != [] ==> r.pending == []
    ensures fails ==> r.saved == st.saved
    ensures st.pending == [] ==> r.saved.memberships == st.saved.memberships && r.saved.groups == st.saved.groups
    ensures st.pending == [] && !fails ==> StudentsCreatedFor(st.saved, r.saved, accountIds)
    decreases |accountIds|
  {
    if accountIds == [] then st
    else
      var init := accountIds[..|accountIds| - 1];
      var last := accountIds[|accountIds| - 1];
      var before := CreateStudents(st, init, fails);
      if st.pending == [] && !fails then
        StudentsCreatedStep(st.saved, before, init, last);
        assert init + [last] == accountIds;
        CreateStudentEffect(before, last, fails).0
      else CreateStudentEffect(before, last, fails).0
  }

  /** One link of each student to the group. */
  function GroupLinks(groupId: int, studentIds: seq<int>): (links: seq<Membership>)
    ensures |links| == |studentIds|
    ensures forall i :: 0 <= i < |links| ==> links[i] == Membership(groupId, studentIds[i])
  {
    seq(|studentIds|, i requires 0 <= i < |studentIds| => Membership(groupId, studentIds[i]))
  }

  /** What `BoundStudentsToTheGroupAsync` does in state `st`: students are
      created for the not-assigned accounts with an imported e-mail, then
      the active students with an imported e-mail are linked to the group
      and committed. `r.1` is false when the final commit throws. */
  function BoundEffect(st: Staging, lines: seq<StudentFile>, groupId: int, fails: bool): (r: (Staging, bool))
    ensures r.1 == !fails
    ensures fails ==> r.0.saved == st.saved
    ensures !fails ==> r.0.pending == []
  {
    var emails := EmailsOf(lines);
    var withStudents := CreateStudents(st, NotAssignedIds(st.saved.accounts, emails), fails);
    var links := GroupLinks(groupId, ActiveStudentIds(withStudents.saved, withStudents.saved.students, emails));
    var staged := Staging(withStudents.saved, withStudents.pending + [AddMemberships(links)]);
    if fails then (staged, false) else (Staging(Committed(staged), []), true)
  }

  /** The links built for the active students with an imported e-mail are
      exactly one per such student, all to the group. */
  lemma LinksOfActiveStudents(db: Db, emails: seq<string>, groupId: int)
    ensures var links := GroupLinks(groupId, ActiveStudentIds(db, db.students, emails));
      (forall m :: m in links ==>
         m.studentGroupId == groupId && exists s :: s in db.students && s.id == m.studentId && ActiveWithEmail(db, s, emails))
      && (forall s :: s in db.students && ActiveWithEmail(db, s, emails) ==> Membership(groupId, s.id) in links)
  {
    var ids := ActiveStudentIds(db, db.students, emails);
    var links := GroupLinks(groupId, ids);
    forall m | m in links
      ensures m.studentGroupId == groupId
      ensures exists s :: s in db.students && s.id == m.studentId && ActiveWithEmail(db, s, emails)
    {
      var i :| 0 <= i < |links| && links[i] == m;
      assert m.studentId == ids[i] && ids[i] in ids;
    }
    forall s | s in db.students && ActiveWithEmail(db, s, emails)
      ensures Membership(groupId, s.id) in links
    {
      assert s.id in ids;
      var i :| 0 <= i < |ids| && ids[i] == s.id;
      assert links[i] == Membership(groupId, s.id);
    }
  }

  /** The final commit of binding saves the state the student creation
      left, with the links appended to its memberships. */
  lemma BoundCommitsLinks(st: Staging, lines: seq<StudentFile>, groupId: int)
    requires st.pending == []
    ensures var withStudents := CreateStudents(st, NotAssignedIds(st.saved.accounts, EmailsOf(lines)), false).saved;
      var links := GroupLinks(groupId, ActiveStudentIds(withStudents, withStudents.students, EmailsOf(lines)));
      var saved := BoundEffect(st, lines, groupId, false).0.saved;
      saved.memberships == st.saved.memberships + links && saved.groups == st.saved.groups
      && saved.accounts == withStudents.accounts && saved.students == withStudents.students
  {
    var emails := EmailsOf(lines);
    var withStudents := CreateStudents(st, NotAssignedIds(st.saved.accounts, emails), false);
    var links := GroupLinks(groupId, ActiveStudentIds(withStudents.saved, withStudents.saved.students, emails));
    var staged := Staging(withStudents.saved, withStudents.pending + [AddMemberships(links)]);
    assert BoundEffect(st, lines, groupId, false).0 == Staging(Committed(staged), []);
    CommitMemberships(withStudents.saved, withStudents.pending, links);
  }

  /** Binding only adds memberships, after the ones saved: each links the
      group with a student whose account is active and has an imported
      e-mail, and every such student gets one; no group is added or changed,
      and the accounts and students are those the student creation left. */
  lemma BoundLinksImportedStudents(st: Staging, lines: seq<StudentFile>, groupId: int)
    requires st.pending == []
    ensures var r := BoundEffect(st, lines, groupId, false);
      var students := CreateStudents(st, NotAssignedIds(st.saved.accounts, EmailsOf(lines)), false).saved;
      r.0.saved.groups == st.saved.groups
      && st.saved.memberships <= r.0.saved.memberships
      && (forall m :: m in r.0.saved.memberships[|st.saved.memberships|..] ==>
            m.studentGroupId == groupId
            && exists s :: s in students.students && s.id == m.studentId && ActiveWithEmail(students, s, EmailsOf(lines)))
      && (forall s :: s in students.students && ActiveWithEmail(students, s, EmailsOf(lines)) ==>
            Membership(groupId, s.id) in r.0.saved.memberships[|st.saved.memberships|..])
      && r.0.saved.accounts == students.accounts && r.0.saved.students == students.students
  {
    var emails := EmailsOf(lines);
    var withStudents := CreateStudents(st, NotAssignedIds(st.saved.accounts, emails), false).saved;
    var links := GroupLinks(groupId, ActiveStudentIds(withStudents, withStudents.students, emails));
    BoundCommitsLinks(st, lines, groupId);
    LinksOfActiveStudents(withStudents, emails, groupId);
    var saved := BoundEffect(st, lines, groupId, false).0.saved;
    assert saved.memberships[|st.saved.memberships|..] == links;
  }

  /** The line has an active student account with its e-mail and names,
      with a student row that is a member of the group. */
  ghost predicate Enrolled(db: Db, line: StudentFile, groupId: int)
  {
    exists a, s :: a in db.accounts && s in db.students && s.accountId == a.id
      && a.email == line.email && a.firstName == line.firstName && a.lastName == line.lastName
      && a.role == Student && a.isActive && Membership(groupId, s.id) in db.memberships
  }

  /** One line of `ImportedLinesEnrolled`. */
  lemma ImportedLineEnrolled(st: Staging, lines: seq<StudentFile>, draws: seq<UInt32>, hash: string -> string,
                             groupId: int, i: nat)
    requires st.pending == [] && KeyedAccounts(st.saved)
    requires SaltLength * |lines| <= AcceptedCount(draws) && i < |lines|
    ensures var created := CreateAccounts(st, lines, draws, hash, false).0;
      Enrolled(BoundEffect(Staging(Committed(created), []), lines, groupId, false).0.saved, lines[i], groupId)
  {
    var created := CreateAccounts(st, lines, draws, hash, false);
    assert Committed(created.0) == created.0.saved;
    var emails := EmailsOf(lines);
    CreateAccountsDraws(st, lines, draws, hash, false);
    var a := created.1[i].value;
    CreatedAccountMadeFor(st, lines, draws, hash, false, i);
    CreatedAccountsStaySaved(st, lines, draws, hash, false);
    CreatedMembers(created.1);
    CreatedAccountsKeyed(st, lines, draws, hash, false);
    AccountByKey(created.0.saved, a);
    assert a.email == emails[i];
    var ids := NotAssignedIds(created.0.saved.accounts, emails);
    assert a.id in ids;
    var start := Staging(created.0.saved, []);
    var withStudents := CreateStudents(start, ids, false).saved;
    assert NotAssignedIn(created.0.saved, a.id);
    var s :| s in withStudents.students && s.accountId == a.id;
    var student := a.(role := Student);
    assert AccountById(withStudents, a.id) == Some(student);
    assert ActiveWithEmail(withStudents, s, emails);
    BoundLinksImportedStudents(start, lines, groupId);
    var saved := BoundEffect(start, lines, groupId, false).0.saved;
    assert Membership(groupId, s.id) in saved.memberships;
    assert student in saved.accounts && s in saved.students;
  }

  /** With account identities as keys, enough of the random stream for
      every salt and no failing commit, every imported line ends up with an
      active student account linked to the group. */
  lemma ImportedLinesEnrolled(st: Staging, lines: seq<StudentFile>, draws: seq<UInt32>, hash: string -> string,
                              groupId: int)
    requires st.pending == [] && KeyedAccounts(st.saved)
    requires SaltLength * |lines| <= AcceptedCount(draws)
    ensures var created := CreateAccounts(st, lines, draws, hash, false).0;
      forall i :: 0 <= i < |lines| ==>
        Enrolled(BoundEffect(Staging(Committed(created), []), lines, groupId, false).0.saved, lines[i], groupId)
  {
    forall i | 0 <= i < |lines|
      ensures Enrolled(BoundEffect(Staging(Committed(CreateAccounts(st, lines, draws, hash, false).0), []),
                                   lines, groupId, false).0.saved, lines[i], groupId)
    {
      ImportedLineEnrolled(st, lines, draws, hash, groupId, i);
    }
  }

  // ---- ImportFileAsync ----

  /** What `ImportFileAsync` does to a unit of work in state `st` whose
      commits fail when `fails` holds, drawing salts from `draws` and hashing
      with `hash`, and what it hands back. */
  function StudentImportEffect(st: Staging, groupId: int, upload: Upload, fields: seq<string>,
                               draws: seq<UInt32>, hash: string -> string, fails: bool)
    : (r: (Staging, ImportOutcome<StudentFile>))
    requires |fields| <= 26
    ensures !GroupExists(st.saved, groupId) ==>
      r == (st, Returned(ReturnError(NotFound, GroupMissingMessage(groupId))))
    ensures r.1.Returned? && r.1.result.IsSuccess() ==>
      GroupExists(st.saved, groupId) && OpenSheet(upload, StudentsSheet, StudentsSheet, fields).Opened?
      && r.1.result.transferredData
         == Some(ScanStudents(OpenSheet(upload, StudentsSheet, StudentsSheet, fields).sheet, AccountEmails(st.saved)).rows)
    ensures GroupExists(st.saved, groupId) && OpenSheet(upload, StudentsSheet, StudentsSheet, fields).Refused? ==>
      r == (Staging(st.saved, []),
            Returned(ReturnError(ValidationError, OpenSheet(upload, StudentsSheet, StudentsSheet, fields).reason.Message())))
    ensures GroupExists(st.saved, groupId) && OpenSheet(upload, StudentsSheet, StudentsSheet, fields).NoSuchSheet? ==>
      r == (st, Thrown(MissingSheetException))
    ensures GroupExists(st.saved, groupId) && OpenSheet(upload, StudentsSheet, StudentsSheet, fields).Opened? ==>
      var s := ScanStudents(OpenSheet(upload, StudentsSheet, StudentsSheet, fields).sheet, AccountEmails(st.saved));
      var created := CreateAccounts(st, s.rows, draws, hash, fails);
      (s.end.Stopped? ==>
         r == (Staging(created.0.saved, []), Returned(ReturnError(ValidationError, s.end.message))))
      && (!s.end.Stopped? && fails ==> r.0.saved == st.saved && r.1 == Thrown(CommitException))
      && (!s.end.Stopped? && !fails ==>
         r.1 == Returned(ReturnData(Some(s.rows)))
         && r.0 == BoundEffect(Staging(Committed(created.0), []), s.rows, groupId, false).0)
  {
    if !GroupExists(st.saved, groupId) then (st, Returned(ReturnError(NotFound, GroupMissingMessage(groupId))))
    else
      match OpenSheet(upload, StudentsSheet, StudentsSheet, fields)
      case Refused(reason) => (Staging(st.saved, []), Returned(ReturnError(ValidationError, reason.Message())))
      case NoSuchSheet => (st, Thrown(MissingSheetException))
      case Opened(ws) =>
        var s := ScanStudents(ws, AccountEmails(st.saved));
        var created := CreateAccounts(st, s.rows, draws, hash, fails);
        if s.end.Stopped? then
          (Staging(created.0.saved, []), Returned(ReturnError(ValidationError, s.end.message)))
        else if fails then (created.0, Thrown(CommitException))
        else
          var bound := BoundEffect(Staging(Committed(created.0), []), s.rows, groupId, fails);
          (bound.0, if bound.1 then Returned(ReturnData(Some(s.rows))) else Thrown(CommitException))
  }

  /** The foreach of `ImportFileAsync` that collects the saved e-mails. */
  method LoadEmails(db: Db) returns (emails: seq<string>)
    ensures emails == AccountEmails(db)
  {
    emails := [];
    for i := 0 to |db.accounts|
      invariant emails == AccountEmails(db)[..i]
    {
      emails := emails + [db.accounts[i].email];
    }
  }

  /** The row loop of `ImportFileAsync`: for every accepted row, one
      `CreateAccountAsync` call, which commits on its own; the loop ends at
      the first row blank in A to C, or at the first refused row with its
      messages. `rest` is what the calls left of the random stream. */
  method StageStudents(uow: UnitOfWork, studentsSheet: Worksheet, existingEmails: seq<string>,
                       draws: seq<UInt32>, hash: string -> string)
    returns (refusal: Option<string>, importedAccounts: seq<StudentFile>, rest: seq<UInt32>)
    modifies uow
    ensures var s := ScanStudents(studentsSheet, existingEmails);
      importedAccounts == s.rows
      && (if s.end.Stopped? then refusal == Some(s.end.message) else refusal.None?)
    ensures var created := CreateAccounts(old(uow.State()), importedAccounts, draws, hash, uow.commitFails);
      uow.State() == created.0 && rest == created.2
  {
    ghost var verdicts := StudentVerdicts(studentsSheet, existingEmails);
    ghost var scan := ScanRows(studentsSheet, StudentColumns, verdicts, 2);
    ghost var start := uow.State();
    importedAccounts := [];
    rest := draws;
    var rowCounter: nat := 2;
    while !IsBlankRow(studentsSheet, StudentColumns, rowCounter)
      invariant scan == Behind(importedAccounts, ScanRows(studentsSheet, StudentColumns, verdicts, rowCounter))
      invariant uow.State() == CreateAccounts(start, importedAccounts, draws, hash, uow.commitFails).0
      invariant rest == CreateAccounts(start, importedAccounts, draws, hash, uow.commitFails).2
      decreases studentsSheet.lastRow + 1 - rowCounter
    {
      NonBlankRowIsUsed(studentsSheet, StudentColumns, rowCounter);
      ScanRowsStep(studentsSheet, StudentColumns, verdicts, rowCounter);
      assert verdicts(rowCounter) == StudentVerdict(studentsSheet, existingEmails, rowCounter);
      var fileLine := StudentFile(CellText(studentsSheet, 'A', rowCounter), CellText(studentsSheet, 'B', rowCounter),
                                  CellText(studentsSheet, 'C', rowCounter));
      var errors := StudentRowErrors(fileLine, rowCounter, existingEmails);
      if errors != [] {
        return Some(Join(errors, "\n")), importedAccounts, rest;
      }
      var created, used := CreateAccount(uow, StudentAccount(fileLine), rest, hash);
      BehindTwice(importedAccounts, fileLine, ScanRows(studentsSheet, StudentColumns, verdicts, rowCounter + 1));
      assert (importedAccounts + [fileLine])[..|importedAccounts|] == importedAccounts;
      importedAccounts := importedAccounts + [fileLine];
      rest := rest[used..];
      rowCounter := rowCounter + 1;
    }
    ScanRowsEnds(studentsSheet, StudentColumns, verdicts, rowCounter);
    assert importedAccounts + [] == importedAccounts;
    return None, importedAccounts, rest;
  }

  /** The foreach of `BoundStudentsToTheGroupAsync` over the accounts with no
      role: the ids of those whose e-mail was imported. */
  method LoadNotAssignedIds(accounts: seq<Account>, studentEmails: seq<string>) returns (accountsIds: seq<int>)
    ensures accountsIds == NotAssignedIds(accounts, studentEmails)
  {
    accountsIds := [];
    for i := 0 to |accounts|
      invariant accountsIds == NotAssignedIds(accounts[..i], studentEmails)
    {
      assert accounts[..i + 1][..i] == accounts[..i];
      if accounts[i].role == NotAssigned && accounts[i].email in studentEmails {
        accountsIds := accountsIds + [accounts[i].id];
      }
    }
    assert accounts[..|accounts|] == accounts;
  }

  /** The foreach over the active students: the ids of those whose e-mail
      was imported. */
  method LoadActiveStudentIds(db: Db, studentEmails: seq<string>) returns (studentsIds: seq<int>)
    ensures studentsIds == ActiveStudentIds(db, db.students, studentEmails)
  {
    studentsIds := [];
    for i := 0 to |db.students|
      invariant studentsIds == ActiveStudentIds(db, db.students[..i], studentEmails)
    {
      assert db.students[..i + 1][..i] == db.students[..i];
      if ActiveWithEmail(db, db.students[i], studentEmails) {
        studentsIds := studentsIds + [db.students[i].id];
      }
    }
    assert db.students[..|db.students|] == db.students;
  }

  /** The foreach of `BoundStudentsToTheGroupAsync` over the imported lines. */
  method LoadStudentEmails(importedAccounts: seq<StudentFile>) returns (studentEmails: seq<string>)
    ensures studentEmails == EmailsOf(importedAccounts)
  {
    studentEmails := [];
    for i := 0 to |importedAccounts|
      invariant studentEmails == EmailsOf(importedAccounts)[..i]
    {
      studentEmails := studentEmails + [importedAccounts[i].email];
    }
    assert EmailsOf(importedAccounts)[..|importedAccounts|] == EmailsOf(importedAccounts);
  }

  /** The foreach that calls `CreateStudentAsync` for each account id. */
  method CreateStudentsFor(uow: UnitOfWork, accountsIds: seq<int>)
    modifies uow
    ensures uow.State() == CreateStudents(old(uow.State()), accountsIds, uow.commitFails)
  {
    ghost var start := uow.State();
    for i := 0 to |accountsIds|
      invariant uow.State() == CreateStudents(start, accountsIds[..i], uow.commitFails)
    {
      assert accountsIds[..i + 1][..i] == accountsIds[..i];
      var _ := CreateStudent(uow, accountsIds[i]);
    }
    assert accountsIds[..|accountsIds|] == accountsIds;
  }

  /** The foreach that builds one link of each student to the group. */
  method BuildGroupLinks(groupId: int, studentsIds: seq<int>) returns (newStudentStudentGroup: seq<Membership>)
    ensures newStudentStudentGroup == GroupLinks(groupId, studentsIds)
  {
    newStudentStudentGroup := [];
    for i := 0 to |studentsIds|
      invariant newStudentStudentGroup == GroupLinks(groupId, studentsIds)[..i]
    {
      newStudentStudentGroup := newStudentStudentGroup + [Membership(groupId, studentsIds[i])];
    }
    assert GroupLinks(groupId, studentsIds)[..|studentsIds|] == GroupLinks(groupId, studentsIds);
  }

  /** `BoundStudentsToTheGroupAsync`: `ok` is false when its final commit
      throws. */
  method BoundStudents(uow: UnitOfWork, importedAccounts: seq<StudentFile>, groupId: int) returns (ok: bool)
    modifies uow
    ensures (uow.State(), ok) == BoundEffect(old(uow.State()), importedAccounts, groupId, uow.commitFails)
  {
    var studentEmails := LoadStudentEmails(importedAccounts);
    var accountsIds := LoadNotAssignedIds(uow.saved.accounts, studentEmails);
    CreateStudentsFor(uow, accountsIds);
    var studentsIds := LoadActiveStudentIds(uow.saved, studentEmails);
    var newStudentStudentGroup := BuildGroupLinks(groupId, studentsIds);
    uow.Add(AddMemberships(newStudentStudentGroup));
    ok := uow.Commit();
  }

  /** `ImportFileAsync`: a missing group is reported before the file is
      read; a refused file or row rolls back and is reported as a validation
      error; the two commits come after the handlers, so a refused commit
      escapes as an exception. */
  method ImportStudents(uow: UnitOfWork, groupId: int, upload: Upload, fields: seq<string>,
                        draws: seq<UInt32>, hash: string -> string)
    returns (r: ImportOutcome<StudentFile>)
    requires |fields| <= 26
    modifies uow
    ensures (uow.State(), r) == StudentImportEffect(old(uow.State()), groupId, upload, fields, draws, hash, uow.commitFails)
  {
    if !GroupExists(uow.saved, groupId) {
      return Returned(ReturnError(NotFound, GroupMissingMessage(groupId)));
    }
    var opening := ValidateFile(upload, StudentsSheet, StudentsSheet, fields);
    if opening.Refused? {
      uow.Rollback();
      return Returned(ReturnError(ValidationError, opening.reason.Message()));
    }
    if opening.NoSuchSheet? {
      return Thrown(MissingSheetException);
    }
    var existingEmails := LoadEmails(uow.saved);
    var refusal, importedAccounts, _ := StageStudents(uow, opening.sheet, existingEmails, draws, hash);
    if refusal.Some? {
      uow.Rollback();
      return Returned(ReturnError(ValidationError, refusal.value));
    }
    var ok := uow.Commit();
    if !ok {
      return Thrown(CommitException);
    }
    var bound := BoundStudents(uow, importedAccounts, groupId);
    r := if bound then Returned(ReturnData(Some(importedAccounts))) else Thrown(CommitException);
  }

  /** The accounts `CreateAccounts` saves for lines whose e-mails are not in
      `existingEmails` follow the accounts saved before; each was made for
      one of the lines, and no other table changes. */
  lemma CreatedAccountsFollowSaved(st: Staging, lines: seq<StudentFile>, existingEmails: seq<string>,
                                   draws: seq<UInt32>, hash: string -> string, fails: bool)
    requires st.pending == []
    requires forall i :: 0 <= i < |lines| ==> lines[i].email !in existingEmails
    ensures var saved := CreateAccounts(st, lines, draws, hash, fails).0.saved;
      |st.saved.accounts| <= |saved.accounts|
      && saved.accounts[..|st.saved.accounts|] == st.saved.accounts
      && (forall a :: a in saved.accounts[|st.saved.accounts|..] ==>
            a.email !in existingEmails && exists i :: 0 <= i < |lines| && MadeFor(a, lines[i], hash))
      && OnlyAccountsAdded(st.saved, saved)
  {
    var created := CreateAccounts(st, lines, draws, hash, fails);
    CreatedAccountsStaySaved(st, lines, draws, hash, fails);
    CreatedAccountsMadeFor(st, lines, draws, hash, fails);
    CreatedMembers(created.1);
    assert created.0.saved.accounts[|st.saved.accounts|..] == Created(created.1);
    forall a | a in Created(created.1)
      ensures a.email !in existingEmails && exists i :: 0 <= i < |lines| && MadeFor(a, lines[i], hash)
    {
      var i :| 0 <= i < |created.1| && created.1[i] == Some(a);
      assert MadeFor(a, lines[i], hash);
    }
  }

  /** Not all or nothing: when a row is refused, the import answers with
      that row's messages, yet the accounts created for the rows before it
      stay saved, after the accounts saved before. Each of them was made for
      one of those rows, with an e-mail no account had before the import;
      no other table changes. With enough of the random stream for every
      salt and no failing commit, each of those rows has its account, in
      the order of the rows. */
  lemma StudentImportKeepsEarlierAccounts(st: Staging, groupId: int, upload: Upload, fields: seq<string>,
                                          draws: seq<UInt32>, hash: string -> string, fails: bool)
    requires |fields| <= 26 && st.pending == []
    requires GroupExists(st.saved, groupId) && OpenSheet(upload, StudentsSheet, StudentsSheet, fields).Opened?
    requires ScanStudents(OpenSheet(upload, StudentsSheet, StudentsSheet, fields).sheet, AccountEmails(st.saved)).end.Stopped?
    ensures var s := ScanStudents(OpenSheet(upload, StudentsSheet, StudentsSheet, fields).sheet, AccountEmails(st.saved));
      var r := StudentImportEffect(st, groupId, upload, fields, draws, hash, fails);
      r.1 == Returned(ReturnError(ValidationError, s.end.message))
      && r.0.pending == []
      && r.0.saved == CreateAccounts(st, s.rows, draws, hash, fails).0.saved
      && |st.saved.accounts| <= |r.0.saved.accounts|
      && r.0.saved.accounts[..|st.saved.accounts|] == st.saved.accounts
      && (forall a :: a in r.0.saved.accounts[|st.saved.accounts|..] ==>
            a.email !in AccountEmails(st.saved) && exists i :: 0 <= i < |s.rows| && MadeFor(a, s.rows[i], hash))
      && OnlyAccountsAdded(st.saved, r.0.saved)
      && (!fails && SaltLength * |s.rows| <= AcceptedCount(draws) ==>
            |r.0.saved.accounts| == |st.saved.accounts| + |s.rows|
            && forall i :: 0 <= i < |s.rows| ==> MadeFor(r.0.saved.accounts[|st.saved.accounts| + i], s.rows[i], hash))
  {
    var ws := OpenSheet(upload, StudentsSheet, StudentsSheet, fields).sheet;
    var s := ScanStudents(ws, AccountEmails(st.saved));
    ScanStudentsMeaning(ws, AccountEmails(st.saved));
    forall i | 0 <= i < |s.rows|
      ensures s.rows[i].email !in AccountEmails(st.saved)
    {
      assert s.rows[(i + 2) - 2] == LineAt(ws, i + 2);
    }
    CreatedAccountsFollowSaved(st, s.rows, AccountEmails(st.saved), draws, hash, fails);
    if !fails && SaltLength * |s.rows| <= AcceptedCount(draws) {
      CreatedAccountPerLine(st, s.rows, draws, hash);
    }
  }

  /** A successful import hands back the lines of the sheet, each with both
      names and an e-mail no account had before; it leaves the groups as
      they were and only adds memberships, each to the import's group. With
      account identities as keys and enough of the random stream for every
      salt, each of those lines has an active student account with its
      e-mail and names, whose student row is a member of the group. */
  lemma StudentImportSuccess(st: Staging, groupId: int, upload: Upload, fields: seq<string>,
                             draws: seq<UInt32>, hash: string -> string, fails: bool)
    requires |fields| <= 26 && st.pending == []
    ensures var r := StudentImportEffect(st, groupId, upload, fields, draws, hash, fails);
      r.1.Returned? && r.1.result.IsSuccess() ==>
        var lines := r.1.result.transferredData.value;
        (forall i :: 0 <= i < |lines| ==>
           lines[i].firstName != "" && lines[i].lastName != "" && lines[i].email !in AccountEmails(st.saved))
        && r.0.pending == []
        && r.0.saved.groups == st.saved.groups
        && st.saved.memberships <= r.0.saved.memberships
        && (forall m :: m in r.0.saved.memberships[|st.saved.memberships|..] ==> m.studentGroupId == groupId)
        && (KeyedAccounts(st.saved) && SaltLength * |lines| <= AcceptedCount(draws) ==>
              forall i :: 0 <= i < |lines| ==> Enrolled(r.0.saved, lines[i], groupId))
  {
    var r := StudentImportEffect(st, groupId, upload, fields, draws, hash, fails);
    if r.1.Returned? && r.1.result.IsSuccess() {
      var ws := OpenSheet(upload, StudentsSheet, StudentsSheet, fields).sheet;
      var s := ScanStudents(ws, AccountEmails(st.saved));
      ScanStudentsMeaning(ws, AccountEmails(st.saved));
      var created := CreateAccounts(st, s.rows, draws, hash, fails);
      CreatedAccountsStaySaved(st, s.rows, draws, hash, fails);
      assert Committed(created.0) == created.0.saved;
      var committed := Staging(Committed(created.0), []);
      BoundLinksImportedStudents(committed, s.rows, groupId);
      forall i | 0 <= i < |s.rows|
        ensures s.rows[i].firstName != "" && s.rows[i].lastName != "" && s.rows[i].email !in AccountEmails(st.saved)
      {
        assert s.rows[(i + 2) - 2] == LineAt(ws, i + 2);
      }
      if KeyedAccounts(st.saved) && SaltLength * |s.rows| <= AcceptedCount(draws) {
        ImportedLinesEnrolled(st, s.rows, draws, hash, groupId);
      }
    }
  }
}
