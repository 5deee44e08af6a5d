/** The persistence the services talk to, as an abstract store: the saved
    tables as one value, the changes staged since the last commit, and a unit
    of work that adds, commits and rolls back. Queries the services make of
    the repositories are functions of the saved tables. */
module Store {
  import opened Results

  /** The range of a C# `int`, the type of the identity columns. */
  predicate IsInt32(x: int) { -0x8000_0000 <= x < 0x8000_0000 }

  datatype Role = NotAssigned | Student | Mentor | Secretary | Admin

  datatype Account = Account(
    id: int, email: string, firstName: string, lastName: string,
    role: Role, salt: string, password: string, isActive: bool)

  /** A student entity: the account it belongs to. */
  datatype StudentRecord = StudentRecord(id: int, accountId: int)

  /** The link between a student and a student group. */
  datatype Membership = Membership(studentGroupId: int, studentId: int)

  datatype StudentGroup = StudentGroup(id: int, courseId: int, name: string, startDate: int, finishDate: int)

  datatype Theme = Theme(id: int, name: string)

  datatype Course = Course(id: int, name: string)

  /** The saved tables. `nextId` is the identity the database gives the next
      inserted row. */
  datatype Db = Db(
    accounts: seq<Account>, students: seq<StudentRecord>, memberships: seq<Membership>,
    groups: seq<StudentGroup>, themes: seq<Theme>, courses: seq<Course>, nextId: int)

  /** A change staged in the unit of work and applied on commit. */
  datatype Change =
    | AddAccount(account: Account)
    | AddStudent(student: StudentRecord)
    | AddGroup(group: StudentGroup)
    | AddTheme(theme: Theme)
    | AddCourse(course: Course)
    | AddMemberships(links: seq<Membership>)
    | UpdateAccount(updatedAccount: Account)
    | UpdateCourse(updatedCourse: Course)
    | ReplaceMemberships(ofStudent: int, newLinks: seq<Membership>)
    | SetInactive(disabledId: int)

  function ReplaceAccountById(accounts: seq<Account>, a: Account): (r: seq<Account>)
    ensures |r| == |accounts|
    ensures forall i :: 0 <= i < |r| ==> r[i] == if accounts[i].id == a.id then a else accounts[i]
  {
    seq(|accounts|, i requires 0 <= i < |accounts| => if accounts[i].id == a.id then a else accounts[i])
  }

  function ReplaceCourseById(courses: seq<Course>, c: Course): (r: seq<Course>)
    ensures |r| == |courses|
    ensures forall i :: 0 <= i < |r| ==> r[i] == if courses[i].id == c.id then c else courses[i]
  {
    seq(|courses|, i requires 0 <= i < |courses| => if courses[i].id == c.id then c else courses[i])
  }

  function DisableById(accounts: seq<Account>, id: int): (r: seq<Account>)
    ensures |r| == |accounts|
    ensures forall i :: 0 <= i < |r| ==>
      r[i] == if accounts[i].id == id then accounts[i].(isActive := false) else accounts[i]
  {
    seq(|accounts|, i requires 0 <= i < |accounts| =>
      if accounts[i].id == id then accounts[i].(isActive := false) else accounts[i])
  }

  /** The memberships that do not belong to `studentId`, in order. */
  function MembershipsOfOthers(links: seq<Membership>, studentId: int): (r: seq<Membership>)
    ensures forall m :: m in r <==> m in links && m.studentId != studentId
    decreases |links|
  {
    if links == [] then []
    else if links[0].studentId == studentId then MembershipsOfOthers(links[1..], studentId)
    else [links[0]] + MembershipsOfOthers(links[1..], studentId)
  }

  /** The effect of one staged change on the saved tables. */
  function Apply(db: Db, change: Change): Db
  {
    match change
    case AddAccount(a) => db.(accounts := db.accounts + [a.(id := db.nextId)], nextId := db.nextId + 1)
    case AddStudent(s) => db.(students := db.students + [s.(id := db.nextId)], nextId := db.nextId + 1)
    case AddGroup(g) => db.(groups := db.groups + [g.(id := db.nextId)], nextId := db.nextId + 1)
    case AddTheme(t) => db.(themes := db.themes + [t.(id := db.nextId)], nextId := db.nextId + 1)
    case AddCourse(c) => db.(courses := db.courses + [c.(id := db.nextId)], nextId := db.nextId + 1)
    case AddMemberships(links) => db.(memberships := db.memberships + links)
    case UpdateAccount(a) => db.(accounts := ReplaceAccountById(db.accounts, a))
    case UpdateCourse(c) => db.(courses := ReplaceCourseById(db.courses, c))
    case ReplaceMemberships(sid, links) =>
      db.(memberships := MembershipsOfOthers(db.memberships, sid) + links)
    case SetInactive(id) => db.(accounts := DisableById(db.accounts, id))
  }

  /** The effect of the staged changes, in the order they were staged. */
  function ApplyAll(db: Db, changes: seq<Change>): Db
    decreases |changes|
  {
    if changes == [] then db
    else Apply(ApplyAll(db, changes[..|changes| - 1]), changes[|changes| - 1])
  }

  lemma ApplyAllAppend(db: Db, changes: seq<Change>, change: Change)
    ensures ApplyAll(db, changes + [change]) == Apply(ApplyAll(db, changes), change)
  {
    assert (changes + [change])[..|changes|] == changes;
  }

  /** Committing only new memberships over a saved state appends them and
      changes no other table. */
  lemma CommitMemberships(db: Db, pending: seq<Change>, links: seq<Membership>)
    requires pending == []
    ensures var saved := ApplyAll(db, pending + [AddMemberships(links)]);
      saved.memberships == db.memberships + links && saved.groups == db.groups
      && saved.accounts == db.accounts && saved.students == db.students
  {
    ApplyAllAppend(db, pending, AddMemberships(links));
  }

  /** Applying two lists of changes one after the other is applying their
      concatenation. */
  lemma {:induction false} ApplyAllConcat(db: Db, xs: seq<Change>, ys: seq<Change>)
    ensures ApplyAll(db, xs + ys) == ApplyAll(ApplyAll(db, xs), ys)
    decreases |ys|
  {
    if ys == [] {
      assert xs + ys == xs;
    } else {
      var last := ys[|ys| - 1];
      var init := ys[..|ys| - 1];
      assert xs + ys == (xs + init) + [last];
      assert ys == init + [last];
      ApplyAllAppend(db, xs + init, last);
      ApplyAllAppend(ApplyAll(db, xs), init, last);
      ApplyAllConcat(db, xs, init);
    }
  }

  // ---- queries of the saved tables ----

  function AccountById(db: Db, id: int): (r: Option<Account>)
    ensures r.Some? ==> r.value in db.accounts && r.value.id == id
    ensures r.None? <==> forall a :: a in db.accounts ==> a.id != id
  {
    FirstAccountWithId(db.accounts, id)
  }

  function FirstAccountWithId(accounts: seq<Account>, id: int): (r: Option<Account>)
    ensures r.Some? ==> r.value in accounts && r.value.id == id
    ensures r.None? <==> forall a :: a in accounts ==> a.id != id
    decreases |accounts|
  {
    if accounts == [] then None
    else if accounts[0].id == id then Some(accounts[0])
    else FirstAccountWithId(accounts[1..], id)
  }

  /** Replacing the accounts that carry `a`'s identity by `a` leaves the
      lookup of every other identity as it was, and makes the lookup of that
      identity, when it found something, find `a`. */
  lemma {:induction false} FirstAccountAfterReplace(accounts: seq<Account>, replaced: seq<Account>, a: Account, id: int)
    requires |replaced| == |accounts|
    requires forall i :: 0 <= i < |accounts| ==> replaced[i] == if accounts[i].id == a.id then a else accounts[i]
    ensures id != a.id ==> FirstAccountWithId(replaced, id) == FirstAccountWithId(accounts, id)
    ensures id == a.id && FirstAccountWithId(accounts, id).Some? ==> FirstAccountWithId(replaced, id) == Some(a)
    decreases |accounts|
  {
    if accounts != [] {
      FirstAccountAfterReplace(accounts[1..], replaced[1..], a, id);
    }
  }

  /** Account identities are keys, as the database's identity column makes
      them: no two accounts share one, and each is below the identity the
      store hands out next. */
  predicate KeyedAccounts(db: Db)
  {
    (forall i, j :: 0 <= i < j < |db.accounts| ==> db.accounts[i].id != db.accounts[j].id)
    && forall a :: a in db.accounts ==> a.id < db.nextId
  }

  /** Where identities are keys, looking one up finds the account that has it. */
  lemma {:induction false} FirstAccountIsKeyed(accounts: seq<Account>, k: nat)
    requires k < |accounts|
    requires forall i, j :: 0 <= i < j < |accounts| ==> accounts[i].id != accounts[j].id
    ensures FirstAccountWithId(accounts, accounts[k].id) == Some(accounts[k])
    decreases |accounts|
  {
    if k > 0 {
      var tail := accounts[1..];
      assert forall i, j :: 0 <= i < j < |tail| ==> tail[i].id == accounts[i + 1].id && tail[j].id == accounts[j + 1].id;
      FirstAccountIsKeyed(tail, k - 1);
    }
  }

  lemma AccountByKey(db: Db, a: Account)
    requires KeyedAccounts(db) && a in db.accounts
    ensures AccountById(db, a.id) == Some(a)
  {
    var k :| 0 <= k < |db.accounts| && db.accounts[k] == a;
    FirstAccountIsKeyed(db.accounts, k);
  }

  /** Adding an account under the next identity keeps identities keys. */
  lemma AddAccountKeepsKeys(db: Db, a: Account)
    requires KeyedAccounts(db) && a.id == db.nextId
    ensures KeyedAccounts(db.(accounts := db.accounts + [a], nextId := db.nextId + 1))
  {
    var accounts := db.accounts + [a];
    forall i, j | 0 <= i < j < |accounts|
      ensures accounts[i].id != accounts[j].id
    {
      if j == |db.accounts| {
        assert accounts[i] in db.accounts;
      }
    }
  }

  function StudentById(db: Db, id: int): (r: Option<StudentRecord>)
    ensures r.Some? ==> r.value in db.students && r.value.id == id
    ensures r.None? <==> forall s :: s in db.students ==> s.id != id
  {
    FirstStudentWithId(db.students, id)
  }

  function FirstStudentWithId(students: seq<StudentRecord>, id: int): (r: Option<StudentRecord>)
    ensures r.Some? ==> r.value in students && r.value.id == id
    ensures r.None? <==> forall s :: s in students ==> s.id != id
    decreases |students|
  {
    if students == [] then None
    else if students[0].id == id then Some(students[0])
    else FirstStudentWithId(students[1..], id)
  }

  /** The e-mail of every saved account, in table order. */
  function AccountEmails(db: Db): (emails: seq<string>)
    ensures |emails| == |db.accounts|
    ensures forall i :: 0 <= i < |emails| ==> emails[i] == db.accounts[i].email
    ensures forall e :: e in emails <==> exists a :: a in db.accounts && a.email == e
  {
    var emails := seq(|db.accounts|, i requires 0 <= i < |db.accounts| => db.accounts[i].email);
    assert forall a :: a in db.accounts ==> a.email in emails by {
      forall a | a in db.accounts ensures a.email in emails {
        var i :| 0 <= i < |db.accounts| && db.accounts[i] == a;
        assert emails[i] == a.email;
      }
    }
    emails
  }

  /** The name of every saved theme, in table order. */
  function ThemeNames(db: Db): (names: seq<string>)
    ensures |names| == |db.themes|
    ensures forall i :: 0 <= i < |names| ==> names[i] == db.themes[i].name
  {
    seq(|db.themes|, i requires 0 <= i < |db.themes| => db.themes[i].name)
  }

  /** The id of every saved course, in table order. */
  function CourseIds(db: Db): (ids: seq<int>)
    ensures |ids| == |db.courses|
    ensures forall i :: 0 <= i < |ids| ==> ids[i] == db.courses[i].id
  {
    seq(|db.courses|, i requires 0 <= i < |db.courses| => db.courses[i].id)
  }

  predicate GroupNameExists(db: Db, name: string)
  {
    exists g :: g in db.groups && g.name == name
  }

  predicate CourseNameTaken(db: Db, name: string)
  {
    exists c :: c in db.courses && c.name == name
  }

  predicate CourseExists(db: Db, id: int)
  {
    exists c :: c in db.courses && c.id == id
  }

  /** The salt stored for the first account with this e-mail; empty when
      there is no such account. */
  function SaltByEmail(accounts: seq<Account>, email: string): (salt: string)
    ensures salt != "" ==> exists a :: a in accounts && a.email == email && a.salt == salt
    ensures (forall a :: a in accounts ==> a.email != email) ==> salt == ""
    ensures forall k ::
      0 <= k < |accounts| && accounts[k].email == email && (forall j :: 0 <= j < k ==> accounts[j].email != email)
      ==> salt == accounts[k].salt
    decreases |accounts|
  {
    if accounts == [] then ""
    else if accounts[0].email == email then accounts[0].salt
    else SaltByEmail(accounts[1..], email)
  }

  /** The first account with these credentials. */
  function AccountWithCredentials(accounts: seq<Account>, email: string, password: string): (r: Option<Account>)
    ensures r.Some? ==> r.value in accounts && r.value.email == email && r.value.password == password
    ensures r.None? ==> forall a :: a in accounts ==> a.email != email || a.password != password
    decreases |accounts|
  {
    if accounts == [] then None
    else if accounts[0].email == email && accounts[0].password == password then Some(accounts[0])
    else AccountWithCredentials(accounts[1..], email, password)
  }

  /** An account may take this e-mail when none is given or when no other
      account already has it. */
  predicate EmailChangeableTo(db: Db, accountId: int, email: Option<string>)
  {
    email.None? || forall a :: a in db.accounts && a.email == email.value ==> a.id == accountId
  }

  /** A student group with this id is saved. */
  predicate GroupExists(db: Db, id: int)
  {
    exists g :: g in db.groups && g.id == id
  }

  /** The state of a unit of work as a value: what is saved and what is
      staged. */
  datatype Staging = Staging(saved: Db, pending: seq<Change>)

  /** The saved tables once the staged changes are committed. */
  function Committed(st: Staging): Db
  {
    ApplyAll(st.saved, st.pending)
  }

  /** The unit of work: the saved tables, the changes staged since the last
      commit, and whether the store refuses commits (a storage fault; the
      model does not say when one occurs). */
  class UnitOfWork {
    var saved: Db
    var pending: seq<Change>
    const commitFails: bool

    function State(): Staging
      reads this
    {
      Staging(saved, pending)
    }

    constructor (db: Db, failing: bool)
      ensures saved == db && pending == [] && commitFails == failing
    {
      saved := db;
      pending := [];
      commitFails := failing;
    }

    /** A repository `Add`/`Update`: staged, not yet saved. */
    method Add(change: Change)
      modifies this
      ensures saved == old(saved) && pending == old(pending) + [change]
    {
      pending := pending + [change];
    }

    /** `CommitAsync`: applies every staged change in order, unless the store
        refuses, in which case nothing changes and the caller sees an
        exception (`ok` false). */
    method Commit() returns (ok: bool)
      modifies this
      ensures ok == !commitFails
      ensures ok ==> saved == ApplyAll(old(saved), old(pending)) && pending == []
      ensures !ok ==> saved == old(saved) && pending == old(pending)
    {
      ok := !commitFails;
      if ok {
        saved := ApplyAll(saved, pending);
        pending := [];
      }
    }

    /** `Rollback`: every staged change is discarded; saved data stays. */
    method Rollback()
      modifies this
      ensures saved == old(saved) && pending == []
    {
      pending := [];
    }
  }
}
