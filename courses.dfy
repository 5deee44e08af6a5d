/** The course service: creating a course under a unique name and renaming
    an existing course, each guarded by checks against the saved courses and
    committed through the unit of work. */
module Courses {
  import opened Results
  import opened Store

  const ValidationMessage: string := "validation error"
  const NameTakenMessage: string := "This name is already teken"
  const InvalidModelMessage: string := "invalid course model"
  const CourseNotFoundMessage: string := "Course Not Found"
  const CourseNameTakenMessage: string := "This course name is already taken"
  const InternalMessage: string := "Internal error"

  /** `CreateCourseAsync`. `name` is the course model's name; `None` stands
      for a null model. The created course carries the id the store gave it. */
  method CreateCourse(uow: UnitOfWork, name: Option<string>) returns (r: Result<Course>)
    modifies uow
    ensures name.None? ==>
      r == ReturnError(ValidationError, ValidationMessage)
      && uow.saved == old(uow.saved) && uow.pending == old(uow.pending)
    ensures name.Some? && CourseNameTaken(old(uow.saved), name.value) ==>
      r == ReturnError(UnprocessableEntity, NameTakenMessage)
      && uow.saved == old(uow.saved) && uow.pending == old(uow.pending)
    ensures name.Some? && !CourseNameTaken(old(uow.saved), name.value) && uow.commitFails ==>
      r == ReturnError(InternalServerError, InternalMessage)
      && uow.saved == old(uow.saved) && uow.pending == []
    ensures name.Some? && !CourseNameTaken(old(uow.saved), name.value) && !uow.commitFails ==>
      var staged := ApplyAll(old(uow.saved), old(uow.pending));
      uow.saved == ApplyAll(old(uow.saved), old(uow.pending) + [AddCourse(Course(0, name.value))])
      && uow.pending == []
      && uow.saved.courses == staged.courses + [Course(staged.nextId, name.value)]
      && r == ReturnData(Some(Course(staged.nextId, name.value)))
  {
    if name.None? {
      return ReturnError(ValidationError, ValidationMessage);
    }
    if CourseNameTaken(uow.saved, name.value) {
      return ReturnError(UnprocessableEntity, NameTakenMessage);
    }
    uow.Add(AddCourse(Course(0, name.value)));
    var ok := uow.Commit();
    if !ok {
      uow.Rollback();
      return ReturnError(InternalServerError, InternalMessage);
    }
    ApplyAllAppend(old(uow.saved), old(uow.pending), AddCourse(Course(0, name.value)));
    var created := uow.saved.courses[|uow.saved.courses| - 1];
    r := ReturnData(Some(created));
  }

  /** `UpdateCourseAsync`: the model's name under the requested id. The name
      check looks at every saved course, the one being renamed included. */
  method UpdateCourse(uow: UnitOfWork, id: int, name: Option<string>) returns (r: Result<Course>)
    modifies uow
    ensures name.None? ==>
      r == ReturnError(ValidationError, InvalidModelMessage)
      && uow.saved == old(uow.saved) && uow.pending == old(uow.pending)
    ensures name.Some? && !CourseExists(old(uow.saved), id) ==>
      r == ReturnError(NotFound, CourseNotFoundMessage)
      && uow.saved == old(uow.saved) && uow.pending == old(uow.pending)
    ensures name.Some? && CourseExists(old(uow.saved), id) && CourseNameTaken(old(uow.saved), name.value) ==>
      r == ReturnError(UnprocessableEntity, CourseNameTakenMessage)
      && uow.saved == old(uow.saved) && uow.pending == old(uow.pending)
    ensures name.Some? && CourseExists(old(uow.saved), id) && !CourseNameTaken(old(uow.saved), name.value) ==>
      if uow.commitFails then
        r == ReturnError(InternalServerError, InternalMessage)
        && uow.saved == old(uow.saved) && uow.pending == []
      else
        r == ReturnData(Some(Course(id, name.value)))
        && uow.saved == ApplyAll(old(uow.saved), old(uow.pending) + [Change.UpdateCourse(Course(id, name.value))])
        && uow.pending == []
  {
    if name.None? {
      return ReturnError(ValidationError, InvalidModelMessage);
    }
    if !CourseExists(uow.saved, id) {
      return ReturnError(NotFound, CourseNotFoundMessage);
    }
    var updated := Course(id, name.value);
    if CourseNameTaken(uow.saved, updated.name) {
      return ReturnError(UnprocessableEntity, CourseNameTakenMessage);
    }
    uow.Add(Change.UpdateCourse(updated));
    var ok := uow.Commit();
    if !ok {
      uow.Rollback();
      return ReturnError(InternalServerError, InternalMessage);
    }
    ApplyAllAppend(old(uow.saved), old(uow.pending), Change.UpdateCourse(updated));
    r := ReturnData(Some(updated));
  }

  /** Applying a course update renames exactly the courses with that id and
      keeps the others and their order. */
  lemma UpdateRenamesOnlyThatCourse(db: Db, c: Course)
    ensures |Apply(db, Change.UpdateCourse(c)).courses| == |db.courses|
    ensures forall i :: 0 <= i < |db.courses| ==>
      Apply(db, Change.UpdateCourse(c)).courses[i] == (if db.courses[i].id == c.id then c else db.courses[i])
    ensures CourseExists(db, c.id) ==> c in Apply(db, Change.UpdateCourse(c)).courses
    ensures Apply(db, Change.UpdateCourse(c)).accounts == db.accounts
  {
    if CourseExists(db, c.id) {
      var x :| x in db.courses && x.id == c.id;
      var i :| 0 <= i < |db.courses| && db.courses[i] == x;
      assert Apply(db, Change.UpdateCourse(c)).courses[i] == c;
    }
  }

  /** Because the name check includes the course itself, an update that keeps
      a course's current name is always refused as taken. */
  lemma KeepingOwnNameIsRefused(db: Db, id: int, i: nat)
    requires i < |db.courses| && db.courses[i].id == id
    ensures CourseExists(db, id) && CourseNameTaken(db, db.courses[i].name)
  {
    assert db.courses[i] in db.courses;
  }
  /** No two saved courses share a name. */
  predicate CourseNamesUnique(db: Db)
  {
    forall i, j :: 0 <= i < j < |db.courses| ==> db.courses[i].name != db.courses[j].name
  }

  /** No two saved courses share an id. */
  predicate CourseIdsUnique(db: Db)
  {
    forall i, j :: 0 <= i < j < |db.courses| ==> db.courses[i].id != db.courses[j].id
  }

  /** The name check of `CreateCourseAsync` keeps course names unique: a
      course added under a name no saved course has leaves them unique. */
  lemma CreatingFreeNameKeepsNamesUnique(db: Db, name: string)
    requires CourseNamesUnique(db) && !CourseNameTaken(db, name)
    ensures CourseNamesUnique(Apply(db, AddCourse(Course(0, name))))
  {
  }

  /** The name check of `UpdateCourseAsync` keeps course names unique: when
      ids are unique, renaming a course to a name no saved course has leaves
      names unique, and ids stay unique. */
  lemma RenamingToFreeNameKeepsNamesUnique(db: Db, c: Course)
    requires CourseNamesUnique(db) && CourseIdsUnique(db) && !CourseNameTaken(db, c.name)
    ensures CourseNamesUnique(Apply(db, Change.UpdateCourse(c)))
    ensures CourseIdsUnique(Apply(db, Change.UpdateCourse(c)))
  {
  }
}
