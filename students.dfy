/** The student service: turning an unassigned account into a student,
    updating a student's account fields and group memberships, and looking up
    the account of a student. */
module Students {
  import opened Results
  import opened Store

  const CannotCreateMessage: string := "Cannot create student."
  const AlreadyAssignedMessage: string := "This account already assigned."
  const StudentNotFoundMessage: string := "Student not found"
  const EmailTakenMessage: string := "Email is already taken!"
  const CannotUpdateMessage: string := "Cannot update student."

  /** What `CreateStudentAsync(accountId)` does to a unit of work in state
      `st` whose commits fail when `fails` holds. A missing account makes the
      role test throw, which the handler turns into "Cannot create
      student."; so does a refused commit. An account with no role becomes a
      student: its role changes and one student row with that account id is
      added, both in one commit. Every path ends with nothing staged. */
  function CreateStudentEffect(st: Staging, accountId: int, fails: bool): (r: (Staging, Result<StudentRecord>))
    ensures r.0.pending == []
    ensures r.1.IsSuccess() <==>
      AccountById(st.saved, accountId).Some? && AccountById(st.saved, accountId).value.role == NotAssigned && !fails
    ensures !r.1.IsSuccess() ==> r.0.saved == st.saved
    ensures AccountById(st.saved, accountId).None? ==> r.1 == ReturnError(InternalServerError, CannotCreateMessage)
    ensures AccountById(st.saved, accountId).Some? && AccountById(st.saved, accountId).value.role != NotAssigned ==>
      r.1 == ReturnError(ValidationError, AlreadyAssignedMessage)
    ensures AccountById(st.saved, accountId).Some? && AccountById(st.saved, accountId).value.role == NotAssigned && fails ==>
      r.1 == ReturnError(InternalServerError, CannotCreateMessage)
    ensures r.1.IsSuccess() ==>
      var account := AccountById(st.saved, accountId).value.(role := Student);
      var staged := ApplyAll(st.saved, st.pending + [UpdateAccount(account)]);
      r.1 == ReturnData(Some(StudentRecord(staged.nextId, accountId)))
      && r.0.saved == ApplyAll(st.saved, st.pending + [UpdateAccount(account), AddStudent(StudentRecord(0, accountId))])
      && r.0.saved.students == Committed(st).students + [StudentRecord(staged.nextId, accountId)]
      && r.0.saved.nextId == Committed(st).nextId + 1
      && r.0.saved.memberships == Committed(st).memberships && r.0.saved.groups == Committed(st).groups
      && |r.0.saved.accounts| == |Committed(st).accounts|
      && (forall i :: 0 <= i < |r.0.saved.accounts| ==>
            r.0.saved.accounts[i] == if Committed(st).accounts[i].id == accountId then account else Committed(st).accounts[i])
  {
    var found := AccountById(st.saved, accountId);
    if found.None? then (Staging(st.saved, []), ReturnError(InternalServerError, CannotCreateMessage))
    else if found.value.role != NotAssigned then (Staging(st.saved, []), ReturnError(ValidationError, AlreadyAssignedMessage))
    else if fails then (Staging(st.saved, []), ReturnError(InternalServerError, CannotCreateMessage))
    else
      var account := found.value.(role := Student);
      var changes := [UpdateAccount(account), AddStudent(StudentRecord(0, accountId))];
      assert st.pending + changes == (st.pending + changes[..1]) + [changes[1]];
      ApplyAllAppend(st.saved, st.pending + changes[..1], changes[1]);
      ApplyAllAppend(st.saved, st.pending, changes[0]);
      var staged := ApplyAll(st.saved, st.pending + [UpdateAccount(account)]);
      (Staging(ApplyAll(st.saved, st.pending + changes), []), ReturnData(Some(StudentRecord(staged.nextId, accountId))))
  }

  /** Over a saved state, creating a student for `accountId` turns that
      account, when it has no role, into a student with a student row; it
      leaves the lookup of every other account, and of a student's account,
      as it was, and keeps every student row. */
  lemma CreateStudentTurnsAccount(st: Staging, accountId: int, fails: bool, id: int)
    requires st.pending == []
    ensures var after := CreateStudentEffect(st, accountId, fails).0.saved;
      var found := AccountById(st.saved, id);
      (forall s :: s in st.saved.students ==> s in after.students)
      && (id != accountId || found.None? || found.value.role != NotAssigned ==> AccountById(after, id) == found)
      && (id == accountId && found.Some? && found.value.role == NotAssigned && !fails ==>
            AccountById(after, id) == Some(found.value.(role := Student))
            && exists s :: s in after.students && s.accountId == id)
  {
    var r := CreateStudentEffect(st, accountId, fails);
    if r.1.IsSuccess() {
      var account := AccountById(st.saved, accountId).value.(role := Student);
      FirstAccountAfterReplace(st.saved.accounts, r.0.saved.accounts, account, id);
      assert r.0.saved.students[|r.0.saved.students| - 1].accountId == accountId;
    }
  }

  /** `CreateStudentAsync(accountId)`: the role test, the staged role change
      and student row, and the commit, with the handler's rollback. */
  method CreateStudent(uow: UnitOfWork, accountId: int) returns (r: Result<StudentRecord>)
    modifies uow
    ensures (uow.State(), r) == CreateStudentEffect(old(uow.State()), accountId, uow.commitFails)
  {
    var found := AccountById(uow.saved, accountId);
    if found.None? {
      uow.Rollback();
      return ReturnError(InternalServerError, CannotCreateMessage);
    }
    var account := found.value;
    if account.role != NotAssigned {
      uow.Rollback();
      return ReturnError(ValidationError, AlreadyAssignedMessage);
    }
    account := account.(role := Student);
    uow.Add(UpdateAccount(account));
    uow.Add(AddStudent(StudentRecord(0, accountId)));
    var ok := uow.Commit();
    if !ok {
      uow.Rollback();
      return ReturnError(InternalServerError, CannotCreateMessage);
    }
    ghost var changes := [UpdateAccount(account), AddStudent(StudentRecord(0, accountId))];
    assert old(uow.pending) + [changes[0]] + [changes[1]] == old(uow.pending) + changes;
    assert old(uow.pending) + changes == (old(uow.pending) + changes[..1]) + [changes[1]];
    ApplyAllAppend(old(uow.saved), old(uow.pending) + changes[..1], changes[1]);
    var created := uow.saved.students[|uow.saved.students| - 1];
    r := ReturnData(Some(created));
  }

  /** The fields of `UpdateStudentDto`; `None` stands for null. */
  datatype UpdateStudentDto = UpdateStudentDto(
    email: Option<string>, firstName: Option<string>, lastName: Option<string>,
    studentGroupIds: Option<seq<int>>)

  /** What an update returns: the student and its account as updated. */
  datatype StudentDto = StudentDto(student: StudentRecord, account: Account)

  /** `value ?? current`. */
  function Coalesce<T>(value: Option<T>, current: T): T
  {
    if value.Some? then value.value else current
  }

  /** The account after the null-coalescing assignments of the update. */
  function UpdatedAccount(account: Account, model: UpdateStudentDto): (a: Account)
    ensures model.email.Some? ==> a.email == model.email.value
    ensures model.email.None? ==> a.email == account.email
    ensures model.firstName.Some? ==> a.firstName == model.firstName.value
    ensures model.firstName.None? ==> a.firstName == account.firstName
    ensures model.lastName.Some? ==> a.lastName == model.lastName.value
    ensures model.lastName.None? ==> a.lastName == account.lastName
    ensures a.id == account.id && a.role == account.role && a.salt == account.salt
            && a.password == account.password && a.isActive == account.isActive
  {
    account.(email := Coalesce(model.email, account.email),
             firstName := Coalesce(model.firstName, account.firstName),
             lastName := Coalesce(model.lastName, account.lastName))
  }

  /** An update that gives no field leaves the account as it was, and giving
      the same fields twice changes nothing more. */
  lemma UpdatedAccountLaws(account: Account, model: UpdateStudentDto)
    ensures model.email.None? && model.firstName.None? && model.lastName.None? ==>
      UpdatedAccount(account, model) == account
    ensures UpdatedAccount(UpdatedAccount(account, model), model) == UpdatedAccount(account, model)
  {
  }

  /** The foreach that builds the new memberships: one link per given group
      id, in order, each carrying this student's id. */
  method MembershipLinks(studentId: int, groupIds: seq<int>) returns (links: seq<Membership>)
    ensures |links| == |groupIds|
    ensures forall i :: 0 <= i < |links| ==> links[i] == Membership(groupIds[i], studentId)
  {
    links := [];
    for i := 0 to |groupIds|
      invariant |links| == i
      invariant forall j :: 0 <= j < i ==> links[j] == Membership(groupIds[j], studentId)
    {
      links := links + [Membership(groupIds[i], studentId)];
    }
  }

  /** `UpdateStudentAsync(studentId, model)`. An account the student row does
      not lead to makes the field assignments throw, which the handler turns
      into "Cannot update student.". Memberships are replaced only when group
      ids are given. */
  method UpdateStudent(uow: UnitOfWork, studentId: int, model: UpdateStudentDto) returns (r: Result<StudentDto>)
    modifies uow
    ensures StudentById(old(uow.saved), studentId).None? ==>
      r == ReturnError(NotFound, StudentNotFoundMessage)
      && uow.saved == old(uow.saved) && uow.pending == old(uow.pending)
    ensures StudentById(old(uow.saved), studentId).Some?
            && !EmailChangeableTo(old(uow.saved), StudentById(old(uow.saved), studentId).value.accountId, model.email) ==>
      r == ReturnError(ValidationError, EmailTakenMessage)
      && uow.saved == old(uow.saved) && uow.pending == old(uow.pending)
    ensures StudentById(old(uow.saved), studentId).Some?
            && EmailChangeableTo(old(uow.saved), StudentById(old(uow.saved), studentId).value.accountId, model.email) ==>
      var student := StudentById(old(uow.saved), studentId).value;
      var account := AccountById(old(uow.saved), student.accountId);
      if account.None? || uow.commitFails then
        r == ReturnError(InternalServerError, CannotUpdateMessage)
        && uow.saved == old(uow.saved) && uow.pending == []
      else
        var updated := UpdatedAccount(account.value, model);
        r == ReturnData(Some(StudentDto(student, updated)))
        && uow.pending == []
        && uow.saved == ApplyAll(old(uow.saved), old(uow.pending) + [UpdateAccount(updated)]
             + (if model.studentGroupIds.None? then []
                else [ReplaceMemberships(student.id, MembershipsOf(student.id, model.studentGroupIds.value))]))
  {
    var foundStudent := StudentById(uow.saved, studentId);
    if foundStudent.None? {
      return ReturnError(NotFound, StudentNotFoundMessage);
    }
    var student := foundStudent.value;
    if !EmailChangeableTo(uow.saved, student.accountId, model.email) {
      return ReturnError(ValidationError, EmailTakenMessage);
    }
    var account := AccountById(uow.saved, student.accountId);
    if account.None? {
      uow.Rollback();
      return ReturnError(InternalServerError, CannotUpdateMessage);
    }
    var updated := UpdatedAccount(account.value, model);
    uow.Add(UpdateAccount(updated));
    if model.studentGroupIds.Some? {
      var links := MembershipLinks(student.id, model.studentGroupIds.value);
      MembershipsOfIsLinks(student.id, model.studentGroupIds.value, links);
      uow.Add(ReplaceMemberships(student.id, links));
    }
    var ok := uow.Commit();
    if !ok {
      uow.Rollback();
      return ReturnError(InternalServerError, CannotUpdateMessage);
    }
    if model.studentGroupIds.None? {
      assert old(uow.pending) + [UpdateAccount(updated)] + [] == old(uow.pending) + [UpdateAccount(updated)];
    }
    r := ReturnData(Some(StudentDto(student, updated)));
  }

  /** The memberships a list of group ids stands for. */
  function MembershipsOf(studentId: int, groupIds: seq<int>): (links: seq<Membership>)
    ensures |links| == |groupIds|
    ensures forall i :: 0 <= i < |links| ==> links[i] == Membership(groupIds[i], studentId)
  {
    seq(|groupIds|, i requires 0 <= i < |groupIds| => Membership(groupIds[i], studentId))
  }

  lemma MembershipsOfIsLinks(studentId: int, groupIds: seq<int>, links: seq<Membership>)
    requires |links| == |groupIds|
    requires forall i :: 0 <= i < |links| ==> links[i] == Membership(groupIds[i], studentId)
    ensures links == MembershipsOf(studentId, groupIds)
  {
  }

  /** After a membership replacement the student belongs to exactly the
      given groups, and every other student keeps its memberships. */
  lemma ReplacedMemberships(db: Db, studentId: int, groupIds: seq<int>)
    ensures forall m: Membership :: m in Apply(db, ReplaceMemberships(studentId, MembershipsOf(studentId, groupIds))).memberships
                        && m.studentId == studentId
                        <==> m.studentId == studentId && m.studentGroupId in groupIds
    ensures forall m: Membership :: m.studentId != studentId ==>
      (m in Apply(db, ReplaceMemberships(studentId, MembershipsOf(studentId, groupIds))).memberships <==> m in db.memberships)
  {
    var links := MembershipsOf(studentId, groupIds);
    forall m: Membership | m.studentId == studentId && m.studentGroupId in groupIds
      ensures m in links
    {
      var i :| 0 <= i < |groupIds| && groupIds[i] == m.studentGroupId;
      assert links[i] == m;
    }
  }

  /** `GetAccountId(studentId)`: the account id of the student, or null. */
  function GetAccountId(db: Db, studentId: int): (r: Option<int>)
    ensures r.None? <==> forall s :: s in db.students ==> s.id != studentId
    ensures r.Some? ==> exists s :: s in db.students && s.id == studentId && s.accountId == r.value
  {
    var student := StudentById(db, studentId);
    if student.None? then None else Some(student.value.accountId)
  }
}
