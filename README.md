# Import, account, course and student services

This project models the business core of the CharlieBackend learning-management
back end:

- **Result model.** The `Result` value the services return carries either
  transferred data or an error code with a message. Its two factories are
  `ReturnData` and `ReturnError`.
- **Account service.**
  - Salt generation: fifteen characters drawn from a 64-character alphabet by
    rejection sampling over 32-bit random words.
  - Account creation with a salted password hash, committed or rolled back.
  - Credential lookup by the salt stored for an e-mail.
  - Account disabling.
- **Course service.** Creating a course under a free name, and renaming a
  course.
- **Student service.**
  - Turning an account with no role into a student.
  - Updating a student's account fields and group memberships.
  - Looking up a student's account id.
- **Three spreadsheet imports.** They share one shape:
  1. The upload's extension picks a reader: `.xlsx` as is, `.csv` converted.
  2. Row 1 must hold the field names.
  3. Data rows are read from row 2 up to the first blank row.
  4. Each row is checked and staged.
  5. A refused row rolls back and returns a validation error.
  - **Themes.** A name must not be saved yet and must be at most 40
    characters long.
  - **Student groups.** The course id must be given and be a saved course.
    The name must be given and free. The start date must not lie after the
    finish date.
  - **Students.** Both names must be given and the e-mail must not be saved
    yet. The import creates and commits one account per accepted row as the
    rows are read. At the end it makes the new accounts students and links the
    active students with an imported e-mail to the group.

The database is one value, `Store.Db`, holding the saved tables. The unit of
work is a class: the saved tables, the changes staged since the last commit,
and a flag saying whether the store refuses commits. Each service operation
is a method on that unit of work. Each method is proved equal to an effect
function of the old state, or is specified in full in its own `ensures`. The
properties are then proved as lemmas about those functions. A row scan is one
generic function, `Sheets.ScanRows`. Each import judges its rows with it, and
`ScanRowsMeaning` says what any scan accepts and where it stops. Each
import's row loop is proved against the scan under a ghost "judge", a
function that agrees with the import's verdict on every row.

Some behaviour of the code as written is stated as such:

- A `.csv` student-group upload is converted into a sheet named "Themes", so
  looking up "Groups" always throws (`GroupImport.CsvGroupUploadThrows`).
- The student import checks e-mails against those saved before the loop.
  Two rows with the same new e-mail therefore both pass
  (`StudentImport.RepeatedEmailInOneSheetPasses`).
- Theme names are checked only against saved themes, so the same holds for
  themes (`ThemeImport.RepeatedNameInOneSheetPasses`).
- A refused student row leaves the accounts of the rows before it saved
  (`StudentImport.StudentImportKeepsEarlierAccounts`).
- A course update whose name equals the course's current name is refused as
  taken (`Courses.KeepingOwnNameIsRefused`).
- `GenerateSalt` draws `Next(0, Length - 1)`, so the last alphabet position is
  never drawn. That position holds a second `0`, so no character is lost
  (`Accounts.SaltOfAvoidsLastPosition`, `Accounts.EveryAlphabetCharacterReachable`).

## Model

| member | source | states |
|---|---|---|
| Results.ReturnData | CharlieBackend.Core/Models/ResultModel/Result.cs:15-41 | succeeds exactly when data is given, carrying it; null data gives BadRequest "Data is not given" and no data |
| Results.ReturnError | CharlieBackend.Core/Models/ResultModel/Result.cs:43-73 | never a success and never carries data; the zero code becomes InternalError "Wrong error information model"; any other code is kept with its message |
| Results.FactoriesAreExclusive | CharlieBackend.Core/Models/ResultModel/Result.cs:15-73 | a result from either factory has exactly one of data and error |
| Text.NatToStringDigits | CharlieBackend.Business/Services/StudentImportService.cs:209-210 | the row number in a message is a non-empty string of decimal digits without a leading zero |
| Text.NatToStringRoundTrip | CharlieBackend.Business/Services/StudentImportService.cs:209-210 | reading the formatted row number back as decimal gives the number |
| Text.NatToStringInjective | CharlieBackend.Business/Services/StudentImportService.cs:221-222 | distinct row numbers give distinct texts, so a message names one row |
| Text.JoinAppend | CharlieBackend.Business/Services/StudentImportService.cs:85 | joining one more message appends the separator and that message (no separator before the first) |
| Text.JoinContainsParts | CharlieBackend.Business/Services/StudentImportService.cs:85 | every message occurs in the joined text, in order: the text up to message k ends with it |
| Text.RemoveAll | CharlieBackend.Business/Services/StudentGroupImportService.cs:139 | `Replace(" ", "")` leaves no space, no longer text, exactly the characters of the input other than the space, and text without a space unchanged |
| Text.RemoveAllConcat | CharlieBackend.Business/Services/StudentGroupImportService.cs:139 | removing a character from a concatenation removes it from each part |
| Text.RemoveAllEmpty | CharlieBackend.Business/Services/StudentGroupImportService.cs:139 | the course id counts as empty exactly when it consists of spaces only |
| Text.LastPiece | CharlieBackend.Business/Services/StudentImportService.cs:168-169 | the last piece of `Split('.')` is the longest dot-free suffix of the name, preceded by a dot when shorter than the name |
| Sheets.CheckHeaders | CharlieBackend.Business/Services/StudentImportService.cs:190-200 | the header loop passes exactly when row 1 holds the field names from column A on; on failure it names a mismatching column |
| Sheets.NonBlankRowIsUsed | CharlieBackend.Business/Services/StudentImportService.cs:226-231 | a row that is not at end of file lies within the used rows, so every row loop ends |
| Sheets.FileExtensionIs | CharlieBackend.Business/Services/ThemeImportService.cs:108 | the extension is `.x` exactly when the name ends with `.x` or is `x` itself |
| Sheets.LoadWorkbook | CharlieBackend.Business/Services/ThemeImportService.cs:108-128 | no workbook exactly for extensions other than `.xlsx` and `.csv`; an `.xlsx` upload is its own workbook; a `.csv` becomes a workbook with one sheet under the conversion's sheet name |
| Sheets.ConvertedExcelPath | CharlieBackend.Business/Services/ThemeImportService.cs:175 | the last four characters of the path are replaced by `.xlsx`; a path shorter than four throws |
| Sheets.ConvertedPathOfCsv | CharlieBackend.Business/Services/ThemeImportService.cs:175 | `stem.csv` converts to `stem.xlsx` |
| Sheets.ScanRowsMeaning | CharlieBackend.Business/Services/ThemeImportService.cs:38-57 | every accepted row is non-blank and accepted, in row order from the first; the scan ends at the first blank row or at the first row after them that is refused or crashes, with its message |
| Sheets.ScanRowsNonBlank | CharlieBackend.Business/Services/ThemeImportService.cs:40 | every row the scan accepts passed the end-of-file test |
| Sheets.ScanRowsAccepted | CharlieBackend.Business/Services/ThemeImportService.cs:42-55 | the i-th accepted row is the one the verdict accepted at the i-th row from the start |
| Sheets.ScanRowsEnd | CharlieBackend.Business/Services/ThemeImportService.cs:40-57 | the scan completes at a blank row right after the accepted ones, or stops there at a non-blank row refused with its message or crashing with its exception |
| Sheets.ScanAccepts | CharlieBackend.Business/Services/ThemeImportService.cs:42-55 | one pass of a row loop over an accepted non-blank row appends that row and moves on to the next |
| Sheets.ScanStops | CharlieBackend.Business/Services/ThemeImportService.cs:40-66 | one pass over a non-blank row that is not accepted ends the scan there with the rows so far and the refusal or exception |
| Sheets.ScanCompletes | CharlieBackend.Business/Services/ThemeImportService.cs:40 | a row loop that reaches a blank row completes with the rows so far |
| Sheets.ScanRowsAgree | CharlieBackend.Business/Services/StudentGroupImportService.cs:40-65 | two sheets blank in the same rows and judged alike row by row are scanned alike |
| Sheets.OpenSheet | CharlieBackend.Business/Services/ThemeImportService.cs:106-143 | refused for an unknown extension exactly when the extension has no reader; missing sheet exactly when the workbook lacks it; refused for a headers mismatch exactly when row 1 does not hold the field names; otherwise opens that sheet, whose headers match |
| Sheets.ValidateFile | CharlieBackend.Business/Services/StudentImportService.cs:164-203 | the method gives exactly the opening `OpenSheet` specifies |
| Store.AccountById | CharlieBackend.Business/Services/StudentService.cs:34 | the account found has the id; none exactly when no saved account has it |
| Store.FirstAccountAfterReplace | CharlieBackend.Business/Services/StudentService.cs:36-49 | updating an account leaves the lookup of every other id as it was and makes the lookup of its id find the update |
| Store.AccountByKey | CharlieBackend.Business/Services/StudentService.cs:34 | where account ids are keys, looking one up finds the account with it |
| Store.AddAccountKeepsKeys | CharlieBackend.Business/Services/AccountService.cs:43-45 | adding an account under the next identity keeps account ids keys |
| Store.StudentById | CharlieBackend.Business/Services/StudentService.cs:81-86 | the student found has the id; none exactly when no saved student has it |
| Store.AccountEmails | CharlieBackend.Business/Services/StudentImportService.cs:62-67 | one e-mail per saved account in table order; an e-mail is listed exactly when some account has it |
| Store.ThemeNames | CharlieBackend.Business/Services/ThemeImportService.cs:83-88 | one name per saved theme, in table order |
| Store.CourseIds | CharlieBackend.Business/Services/StudentGroupImportService.cs:132-137 | one id per saved course, in table order |
| Store.SaltByEmail | CharlieBackend.Business/Services/AccountService.cs:59 | the salt of the first account with that e-mail; empty when no account has it |
| Store.AccountWithCredentials | CharlieBackend.Business/Services/AccountService.cs:66 | the account found has the e-mail and password hash; none means no account has both |
| Store.MembershipsOfOthers | CharlieBackend.Business/Services/StudentService.cs:122 | exactly the links of other students are kept |
| Store.DisableById | CharlieBackend.Business/Services/AccountService.cs:106 | the accounts with the id become inactive, all others unchanged |
| Store.UnitOfWork.Add | CharlieBackend.Business/Services/AccountService.cs:43 | a staged change is appended to what is pending and nothing is saved |
| Store.UnitOfWork.Commit | CharlieBackend.Business/Services/AccountService.cs:45 | applies every pending change in order and empties the pending list, or, when the store refuses, changes nothing and reports failure |
| Store.UnitOfWork.Rollback | CharlieBackend.Business/Services/AccountService.cs:51 | discards every pending change and keeps what is saved |
| Store.CommitMemberships | CharlieBackend.Business/Services/StudentImportService.cs:160-161 | committing new memberships over a saved state appends them and changes no other table |
| Accounts.Wrap32 | CharlieBackend.Business/Services/AccountService.cs:153 | the `(Int32)` cast gives the 32-bit value congruent modulo 2^32, and leaves 32-bit values unchanged |
| Accounts.AcceptLimitIsFair | CharlieBackend.Business/Services/AccountService.cs:149-151 | the accepted words are a whole number of periods of the range width, and less than one period is rejected |
| Accounts.FirstAccepted | CharlieBackend.Business/Services/AccountService.cs:145-155 | the position after the first word below the limit, every word before it being rejected; none exactly when all remaining words are rejected |
| Accounts.Next | CharlieBackend.Business/Services/AccountService.cs:139-157 | division by zero exactly for an empty range; otherwise the first accepted word mapped by `minValue + rand % diff` with the 32-bit cast |
| Accounts.NextValueInRange | CharlieBackend.Business/Services/AccountService.cs:144-153 | for every pair of 32-bit bounds with `minValue < maxValue`, including those whose difference overflows 32 bits, the width is non-zero and the value lies in `[minValue, maxValue)` |
| Accounts.AcceptedStep | CharlieBackend.Business/Services/AccountService.cs:145-155 | reading on to the next accepted word adds exactly that word to the accepted ones |
| Accounts.AcceptedInPrefix | CharlieBackend.Business/Services/AccountService.cs:145-155 | the words accepted in a shorter stream are a prefix of those accepted in a longer one |
| Accounts.AcceptedInSuffix | CharlieBackend.Business/Services/AccountService.cs:145-155 | what the words after a position accept is what the whole stream accepts less what the words before it accept |
| Accounts.SaltOfAvoidsLastPosition | CharlieBackend.Business/Services/AccountService.cs:129-135 | every salt character comes from the alphabet without its last position |
| Accounts.EveryAlphabetCharacterReachable | CharlieBackend.Business/Services/AccountService.cs:16 | every character of the alphabet also stands before its last position |
| Accounts.SaltPrefixAccepted | CharlieBackend.Business/Services/AccountService.cs:129-135 | k draws read exactly k accepted words, or the stream holds fewer than k |
| Accounts.DrawSalt | CharlieBackend.Business/Services/AccountService.cs:121-138 | the salt is the 15 characters of the first 15 accepted words; none exactly when fewer are accepted; what the rest of the stream accepts is 15 words fewer, or nothing |
| Accounts.NextSaltCharacter | CharlieBackend.Business/Services/AccountService.cs:131-134 | the character is the alphabet at the first accepted word modulo 63; none exactly when no word is accepted |
| Accounts.GenerateSalt | CharlieBackend.Business/Services/AccountService.cs:121-138 | the loop's salt and stream position are those `DrawSalt` specifies |
| Accounts.AppendSaltCharacter | CharlieBackend.Business/Services/AccountService.cs:129-135 | one loop pass appends the next accepted word's character and advances the draw count |
| Accounts.NewAccount | CharlieBackend.Business/Services/AccountService.cs:32-41 | the account has the model's e-mail and names, no role, the salt, and the hash of the confirmed password with it |
| Accounts.CreateAccountEffect | CharlieBackend.Business/Services/AccountService.cs:28-55 | nothing is left pending; an account exactly when the commit succeeds and 15 words are accepted; the salt uses up 15 accepted words, or the whole stream, whether or not the commit goes through; on failure nothing is saved; the account carries the model's fields, no role, a 15-character salt and the salted hash |
| Accounts.CreatedAccountIsSaved | CharlieBackend.Business/Services/AccountService.cs:43-47 | a created account is appended with the next identity after what was staged, and no other table changes |
| Accounts.CreateAccount | CharlieBackend.Business/Services/AccountService.cs:28-55 | the method's new state, account and stream use are those `CreateAccountEffect` specifies |
| Accounts.GetAccountCredentials | CharlieBackend.Business/Services/AccountService.cs:57-72 | null when no salt is stored for the e-mail; with a stored salt, null exactly when no saved account has that e-mail and the hash of the given password with that salt; an account found is saved and has both |
| Accounts.CredentialsMatchOwnSalt | CharlieBackend.Business/Services/AccountService.cs:57-72 | with unique e-mails, the account found has the hash of the given password with its own salt |
| Accounts.SaltOfUniqueEmail | CharlieBackend.Business/Services/AccountService.cs:59 | with unique e-mails, the salt stored for an account's e-mail is its own |
| Accounts.DisableAccount | CharlieBackend.Business/Services/AccountService.cs:102-118 | true exactly when the commit succeeds, and then the account is disabled; on failure nothing is saved; nothing stays pending |
| Courses.CreateCourse | CharlieBackend.Business/Services/CourseService.cs:23-52 | null model: validation error, nothing changed; a saved name: "already teken", nothing changed; a refused commit: internal error, rolled back; otherwise the course is appended with the next identity and returned |
| Courses.UpdateCourse | CharlieBackend.Business/Services/CourseService.cs:61-95 | null model, unknown id and a taken name each give their error and change nothing; a refused commit rolls back; otherwise the course with that id is renamed and returned |
| Courses.UpdateRenamesOnlyThatCourse | CharlieBackend.Business/Services/CourseService.cs:83-85 | an update replaces exactly the courses with that id, keeps the order, and puts the renamed course in the table |
| Courses.KeepingOwnNameIsRefused | CharlieBackend.Business/Services/CourseService.cs:69-81 | the name check includes the course being updated, so keeping its name is refused as taken |
| Courses.CreatingFreeNameKeepsNamesUnique | CharlieBackend.Business/Services/CourseService.cs:32-43 | adding a course under a name not yet saved keeps course names unique |
| Courses.RenamingToFreeNameKeepsNamesUnique | CharlieBackend.Business/Services/CourseService.cs:76-87 | with unique ids, renaming to a name not yet saved keeps names and ids unique |
| Students.CreateStudentEffect | CharlieBackend.Business/Services/StudentService.cs:30-68 | success exactly for a saved account with no role and a commit that goes through: that account becomes a student and one student row with its id is appended; a missing account or refused commit gives "Cannot create student."; another role gives "already assigned"; on failure nothing is saved |
| Students.CreateStudentTurnsAccount | CharlieBackend.Business/Services/StudentService.cs:34-49 | over a saved state, an account with no role becomes a student with a student row; the lookup of every other account is unchanged and no student row is lost |
| Students.CreateStudent | CharlieBackend.Business/Services/StudentService.cs:30-68 | the method's new state and result are those `CreateStudentEffect` specifies |
| Students.UpdatedAccount | CharlieBackend.Business/Services/StudentService.cs:104-106 | each given field replaces the account's, each null one keeps it; id, role, salt, password and activity are kept |
| Students.UpdatedAccountLaws | CharlieBackend.Business/Services/StudentService.cs:104-106 | an update that gives no field changes nothing, and updating twice is updating once |
| Students.MembershipLinks | CharlieBackend.Business/Services/StudentService.cs:113-120 | one link per group id given, in order, each to this student |
| Students.MembershipsOf | CharlieBackend.Business/Services/StudentService.cs:113-120 | the links a list of group ids stands for, one per id in order |
| Students.ReplacedMemberships | CharlieBackend.Business/Services/StudentService.cs:108-123 | after the replacement the student belongs to exactly the given groups and every other student's links are unchanged |
| Students.UpdateStudent | CharlieBackend.Business/Services/StudentService.cs:77-137 | unknown student: not found, nothing changed; an e-mail another account has: "Email is already taken!", nothing changed; a missing account or refused commit: "Cannot update student.", rolled back; otherwise the account fields are coalesced, memberships are replaced only when ids are given, and all is committed |
| Students.GetAccountId | CharlieBackend.Business/Services/StudentService.cs:146-151 | null exactly when no student has the id; otherwise that student's account id |
| ThemeImport.ThemeRowError | CharlieBackend.Business/Services/ThemeImportService.cs:81-104 | a row passes exactly when its name is not saved and has at most 40 characters; a saved name is reported before a long one, each with its message |
| ThemeImport.ThemeVerdict | CharlieBackend.Business/Services/ThemeImportService.cs:42-47 | a row is accepted as its column-A text exactly when no check fails, and is otherwise refused with the check's message |
| ThemeImport.ScanThemesMeaning | CharlieBackend.Business/Services/ThemeImportService.cs:38-57 | the import accepts the column-A names from row 2 on, each non-empty, new and at most 40 long, up to the first empty cell or the first refused row with its message; it never crashes |
| ThemeImport.JudgedScanMeaning | CharlieBackend.Business/Services/ThemeImportService.cs:38-57 | what `ScanThemesMeaning` states holds for any judge that agrees with `ThemeVerdict` row by row |
| ThemeImport.AcceptedThemeRow | CharlieBackend.Business/Services/ThemeImportService.cs:42-55 | the i-th accepted row holds the non-empty column-A name of row 2 + i, not saved and at most 40 long |
| ThemeImport.BlankThemeRow | CharlieBackend.Business/Services/ThemeImportService.cs:145-148 | the end-of-file test of the theme sheet holds exactly when column A is empty |
| ThemeImport.JudgedScanEnd | CharlieBackend.Business/Services/ThemeImportService.cs:40-66 | the scan never crashes; it completes at an empty column-A cell or stops at a row with a name whose check fails, with that check's message |
| ThemeImport.JudgeThemeRow | CharlieBackend.Business/Services/ThemeImportService.cs:42-47 | one pass re-reads the saved names and gives the row's verdict, which is never a crash |
| ThemeImport.ThemeChangesAdd | CharlieBackend.Business/Services/ThemeImportService.cs:49-55 | committing the staged rows appends one theme per row named as its cell and numbered in order, and touches nothing else |
| ThemeImport.ThemeImportEffect | CharlieBackend.Business/Services/ThemeImportService.cs:30-79 | a bad file or refused row gives a validation error and discards the staging; a missing sheet or refused commit throws; otherwise the rows are returned and saved as new themes |
| ThemeImport.ThemeImportAllOrNothing | CharlieBackend.Business/Services/ThemeImportService.cs:30-79 | unless the import succeeds nothing is saved; on success one theme is saved per row returned |
| ThemeImport.LoadThemeNames | CharlieBackend.Business/Services/ThemeImportService.cs:83-88 | the loop collects exactly the saved theme names in order |
| ThemeImport.StageThemes | CharlieBackend.Business/Services/ThemeImportService.cs:38-57 | nothing is saved; one theme is staged per accepted row; the rows and end are those of the scan under the given judge, and the refusal is the message exactly when the scan stopped |
| ThemeImport.ImportThemes | CharlieBackend.Business/Services/ThemeImportService.cs:30-79 | the method's new state and outcome are those `ThemeImportEffect` specifies |
| ThemeImport.RepeatedNameInOneSheetPasses | CharlieBackend.Business/Services/ThemeImportService.cs:83-96 | a new name in two rows of one sheet passes twice, because names are checked only against saved themes |
| GroupImport.CheckGroupLine | CharlieBackend.Business/Services/StudentGroupImportService.cs:130-178 | a line passes exactly when the course id is not blank, the name is given, the start is not after the finish, and the id parses as a 64-bit integer naming a saved course whose group name is free; the first failing check decides the outcome: a blank id, an empty name or reversed dates give their format message, an unparsable id its parse message, an id beyond 64 bits an uncaught overflow, an unknown course or a taken name their database message |
| GroupImport.AcceptedRowIsValid | CharlieBackend.Business/Services/StudentGroupImportService.cs:42-60 | an accepted row is the line of cells B to E, passes every check, names a saved course by a 32-bit id and stages that group |
| GroupImport.ScanGroupsMeaning | CharlieBackend.Business/Services/StudentGroupImportService.cs:40-65 | every accepted row is non-blank and is the line of its cells, passes every check, lists a saved course by a 32-bit id and a free name, with the start not after the finish, in order; the scan ends at the first blank row or at the refused or crashing row after them, with its verdict |
| GroupImport.JudgedScanMeaning | CharlieBackend.Business/Services/StudentGroupImportService.cs:40-65 | what `ScanGroupsMeaning` states holds for any judge that agrees with `GroupRowVerdict` row by row |
| GroupImport.JudgeGroupRow | CharlieBackend.Business/Services/StudentGroupImportService.cs:42-60 | one pass of the loop body gives the judge's verdict on that row |
| GroupImport.ColumnAIgnored | CharlieBackend.Business/Services/StudentGroupImportService.cs:180-186 | column A plays no part: sheets agreeing outside it are imported alike |
| GroupImport.GroupChangesAdd | CharlieBackend.Business/Services/StudentGroupImportService.cs:54-63 | committing the staged rows appends one group per row, numbered in order, and touches nothing else |
| GroupImport.GroupImportEffect | CharlieBackend.Business/Services/StudentGroupImportService.cs:30-89 | a bad file gives a prefixed validation error; a refused row gives its message; both discard the staging; a missing sheet, an overflow or a refused commit throws; otherwise the lines are returned and saved as new groups |
| GroupImport.GroupImportAllOrNothing | CharlieBackend.Business/Services/StudentGroupImportService.cs:30-89 | unless the import succeeds nothing is saved; on success one group is saved per line returned |
| GroupImport.CsvGroupUploadThrows | CharlieBackend.Business/Services/StudentGroupImportService.cs:217-238 | a `.csv` upload is converted into a sheet named "Themes", so the "Groups" lookup throws and nothing changes |
| GroupImport.StageGroups | CharlieBackend.Business/Services/StudentGroupImportService.cs:38-65 | nothing is saved; one group is staged per accepted row; rows and ending are those of the scan under the given judge |
| GroupImport.ImportGroups | CharlieBackend.Business/Services/StudentGroupImportService.cs:30-89 | the method's new state and outcome are those `GroupImportEffect` specifies |
| GroupImport.CheckIfExcelFileIff | CharlieBackend.Business/Services/StudentGroupImportService.cs:211-216 | the check passes exactly for names ending in `.xlsx` or `.xls`, or the bare words `xlsx` and `xls` |
| StudentImport.StudentRowErrors | CharlieBackend.Business/Services/StudentImportService.cs:205-224 | no message exactly when both names are given and the e-mail is not saved; one message per failed check, in the order first name, last name, e-mail |
| StudentImport.StudentVerdict | CharlieBackend.Business/Services/StudentImportService.cs:72-86 | a row is accepted as its line exactly when it has no errors, and is otherwise refused with them joined by line breaks |
| StudentImport.ScanStudentsMeaning | CharlieBackend.Business/Services/StudentImportService.cs:69-101 | the import accepts the lines of rows 2 on, each with both names and a new e-mail, up to the first row blank in A to C, or stops at the first other row with its joined messages; it never crashes |
| StudentImport.JudgedScanMeaning | CharlieBackend.Business/Services/StudentImportService.cs:69-101 | what `ScanStudentsMeaning` states holds for any judge that agrees with `StudentVerdict` row by row |
| StudentImport.RepeatedEmailInOneSheetPasses | CharlieBackend.Business/Services/StudentImportService.cs:62-79 | a new e-mail in two rows of one sheet passes twice, because the e-mails are read once before the loop |
| StudentImport.CreateAccounts | CharlieBackend.Business/Services/StudentImportService.cs:88-97 | one result per line; nothing pending after a call; with a refusing store nothing is saved and no account is created |
| StudentImport.CreateAccountsDraws | CharlieBackend.Business/Services/StudentImportService.cs:88-97 | the call for line i creates its account exactly when no commit fails and the stream accepts 15(i+1) words; the rest of the stream accepts 15 words fewer per line, or nothing |
| StudentImport.CreatedAccountPerLine | CharlieBackend.Business/Services/StudentImportService.cs:88-97 | with enough of the stream and no failing commit, one account per line is saved after the earlier accounts, in line order, each made for its line |
| StudentImport.CreatedAccountsKeyed | CharlieBackend.Business/Services/StudentImportService.cs:88-97 | account creation keeps account ids keys |
| StudentImport.CreatedAccountsMadeFor | CharlieBackend.Business/Services/StudentImportService.cs:88-97 | every account created for a line has its e-mail and names, no role, a 15-character salt and the hash of "changeYourPassword" with it |
| StudentImport.CreatedAccountsStaySaved | CharlieBackend.Business/Services/StudentImportService.cs:97 | the accounts created are saved after the earlier accounts in order, and no other table changes |
| StudentImport.CreatedMembers | CharlieBackend.Business/Services/StudentImportService.cs:97-99 | an account is among those created exactly when some call returned it |
| StudentImport.EmailsOf | CharlieBackend.Business/Services/StudentImportService.cs:125-128 | the imported e-mails, one per line in order |
| StudentImport.NotAssignedIds | CharlieBackend.Business/Services/StudentImportService.cs:130-136 | exactly the ids of accounts with no role whose e-mail was imported |
| StudentImport.ActiveStudentIds | CharlieBackend.Business/Services/StudentImportService.cs:143-149 | exactly the ids of students whose account is active and has an imported e-mail |
| StudentImport.CreateStudents | CharlieBackend.Business/Services/StudentImportService.cs:138-141 | nothing pending after a call; a refusing store saves nothing; memberships and groups are unchanged; with nothing staged and no failing commit, every listed account with no role becomes a student with a student row, and every other account lookup is unchanged |
| StudentImport.StudentsCreatedStep | CharlieBackend.Business/Services/StudentImportService.cs:138-141 | one more committed `CreateStudentAsync` call extends the conversion to its account id |
| StudentImport.GroupLinks | CharlieBackend.Business/Services/StudentImportService.cs:151-158 | one link of each student to the group, in order |
| StudentImport.BoundEffect | CharlieBackend.Business/Services/StudentImportService.cs:118-162 | the final commit succeeds exactly when the store accepts it; on failure nothing is saved; on success nothing is pending |
| StudentImport.BoundLinksImportedStudents | CharlieBackend.Business/Services/StudentImportService.cs:118-162 | binding keeps the groups and the earlier memberships; the links added are exactly one of this group per student whose account is active and has an imported e-mail; accounts and students are those the student creation left |
| StudentImport.LinksOfActiveStudents | CharlieBackend.Business/Services/StudentImportService.cs:143-158 | the links built are all to the group, each for an active student with an imported e-mail, and every such student has one |
| StudentImport.BoundCommitsLinks | CharlieBackend.Business/Services/StudentImportService.cs:160-161 | the final commit appends the links to the memberships and keeps the accounts and students the student creation left |
| StudentImport.ImportedLinesEnrolled | CharlieBackend.Business/Services/StudentImportService.cs:88-161 | with account ids as keys, enough of the stream and no failing commit, every imported line has an active student account with its e-mail and names whose student row is a member of the group |
| StudentImport.StudentImportEffect | CharlieBackend.Business/Services/StudentImportService.cs:44-116 | a missing group gives not found and changes nothing; a refused file gives its validation message and drops what was staged; a missing sheet throws and changes nothing; a refused row gives its messages and keeps the accounts created before it; a refused account commit throws with nothing saved; otherwise the binding's state, and a success returning exactly the accepted lines |
| StudentImport.LoadEmails | CharlieBackend.Business/Services/StudentImportService.cs:62-67 | the loop collects exactly the saved e-mails in order |
| StudentImport.StageStudents | CharlieBackend.Business/Services/StudentImportService.cs:69-101 | the rows and the refusal are those of the scan, and the state and stream are those `CreateAccounts` specifies for them |
| StudentImport.LoadStudentEmails | CharlieBackend.Business/Services/StudentImportService.cs:125-128 | the loop collects exactly `EmailsOf` the imported lines |
| StudentImport.CreateStudentsFor | CharlieBackend.Business/Services/StudentImportService.cs:138-141 | the loop's new state is the one `CreateStudents` specifies for the ids in order |
| StudentImport.BuildGroupLinks | CharlieBackend.Business/Services/StudentImportService.cs:151-158 | the loop builds exactly `GroupLinks` for the group and the ids |
| StudentImport.LoadNotAssignedIds | CharlieBackend.Business/Services/StudentImportService.cs:130-136 | the loop collects exactly `NotAssignedIds` |
| StudentImport.LoadActiveStudentIds | CharlieBackend.Business/Services/StudentImportService.cs:143-149 | the loop collects exactly `ActiveStudentIds` |
| StudentImport.BoundStudents | CharlieBackend.Business/Services/StudentImportService.cs:118-162 | the method's new state and commit outcome are those `BoundEffect` specifies |
| StudentImport.ImportStudents | CharlieBackend.Business/Services/StudentImportService.cs:44-116 | the method's new state and outcome are those `StudentImportEffect` specifies |
| StudentImport.CreatedAccountsFollowSaved | CharlieBackend.Business/Services/StudentImportService.cs:88-99 | the accounts saved before stay first; each one after them was made for an imported line with an e-mail not saved before |
| StudentImport.StudentImportKeepsEarlierAccounts | CharlieBackend.Business/Services/StudentImportService.cs:79-97 | a refused row returns its messages, yet the accounts created for the rows before it stay saved, each made for one of those lines, and no other table changes; with enough of the stream and no failing commit, each of those rows has its account, in row order |
| StudentImport.StudentImportSuccess | CharlieBackend.Business/Services/StudentImportService.cs:44-162 | on success every returned line has both names and an e-mail not saved before, nothing is pending, groups are unchanged, and only memberships of this group are added; with account ids as keys and enough of the stream, every line has an active student account with its e-mail and names, linked to the group |

## Left out

- Files on disk, streams, the upload directory and the deletion of its files are not modelled. An upload is its name plus the workbook or CSV table it holds. The CSV conversion is modelled only by the sheet name it gives and the path rule of `ConvertCsvToExcel`.
- The hashing (SHA-256 over the default encoding, hex in lower case) is a function parameter, `hash`. The date and integer conversions (`Convert.ToDateTime`, `Convert.ToInt64`) are parameters too. A date is modelled as an integer that orders as dates do.
- The cryptographic random generator is a finite sequence of 32-bit words. `Next` loops until a word is accepted; when the sequence ends first, the model reports `OutOfDraws` and account creation fails. That extra failure has no counterpart in the code.
- Accounts.Next: the model requires 32-bit arguments, as the C# `Int32` parameters guarantee.
- Storage faults are one flag per unit of work: every commit either goes through or is refused. The model does not say which commit fails when.
- The repository queries are functions of the saved tables:
  - `GetAllNotAssignedAccountsAsync` gives the accounts with no role.
  - `GetAllActiveStudentsAsync` gives the students whose account is active.
  - `SearchStudentGroup` is a lookup of the group id.
  - `IsEmailChangableToAsync` passes a null e-mail or one no other account has.
  - `GetAccountCredentialsByIdAsync` is `AccountById`.
  - `UpdateManyToMany` replaces the student's links.
  - `AddStudentOfStudentGroups` stages the new links.
  - `DisableAccountAsync` of the repository stages the disabling; its boolean result is ignored, as in the code.
- `Result.Success`/`Error` and `GetSuccess`/`GetError` are not part of this model's sources. They are modelled by `ReturnData` and `ReturnError`. Named error codes are taken to be non-zero.
- AutoMapper mappings are identity maps: an import returns the lines it read, and a service returns the entity it saved.
- The field names row 1 must hold come from reflection over the DTO. They are a parameter, `fields`, of at most 26 names, so that each falls in a single column letter.
- The second `foundStudent == null` test of `UpdateStudentAsync` can never fire after the first one and is left out.
- The remaining members of the services are not part of this model. That covers `IsEmailTakenAsync`, `UpdateAccountCredentialsAsync`, `IsAccountActiveAsync`, the course and student listing queries, `GetStudentByAccountIdAsync`/`ByIdAsync`/`ByEmailAsync` and `NotificationService`.
- StudentImport.StudentImportSuccess: the enrolment of every line is proved only where account ids are keys, that is, distinct and below the next identity, as the database's identity column keeps them. It also needs enough of the random stream for every salt. Without keys, a line's account could share its id with an earlier account that the id lookups find instead.
- Accounts.GetAccountCredentials: `GetAccountCredentialsAsync` overwrites the caller's `authenticationModel.Password` with the hash (AccountService.cs:64). The model hashes into a local value and does not model that side effect on the argument.
- Accounts.NewAccount: the C# initializer does not set `IsActive`; the model assumes the database default makes a new account active.
- ThemeImport.ThemeRowError: C# `Length > 40` counts UTF-16 code units; the model counts the characters of the string. Names with characters outside the Basic Multilingual Plane may be longer in C# than in the model.
- Concurrency and the asynchronous scheduling of the `async` methods are not modelled; each call runs to completion in order.
