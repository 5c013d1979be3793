/**
 * The student store of the back end: create, list, look up, update field by
 * field, and soft delete (a deleted student keeps its row, marked DELETED).
 */
module StudentService {
  import opened Wrappers
  import Tables

  datatype StudentState = Normal | Graduate | Deleted

  datatype StudentType = Examinee | Dropper | Adult

  /** A stored date column. */
  type Date = int

  datatype Student = Student(
    id: int,
    name: string,
    state: StudentState,
    studentType: StudentType,
    region: string,
    age: int,
    description: string,
    startDate: Date,
    endDate: Option<Date>,
    parentInfo: string,
    phoneNumber: string)

  /** A partial student record as supplied by a caller; the id is never part of it. */
  datatype StudentPatch = StudentPatch(
    name: Option<string>,
    state: Option<StudentState>,
    studentType: Option<StudentType>,
    region: Option<string>,
    age: Option<int>,
    description: Option<string>,
    startDate: Option<Date>,
    endDate: Option<Date>,
    parentInfo: Option<string>,
    phoneNumber: Option<string>)

  datatype StoreError =
      /** a column declared without `nullable` and without a default was not supplied */
    | MissingRequiredColumn
      /** an update whose set of values is empty */
    | UpdateValuesMissing

  /** The patch the soft delete writes. */
  const DeletedPatch := StudentPatch(None, Some(Deleted), None, None, None, None, None, None, None, None)

  predicate IsEmptyPatch(p: StudentPatch)
  {
    p.name.None? && p.state.None? && p.studentType.None? && p.region.None? && p.age.None? &&
    p.description.None? && p.startDate.None? && p.endDate.None? && p.parentInfo.None? && p.phoneNumber.None?
  }

  /** Every column without `nullable` and without a default is supplied. */
  predicate HasRequiredColumns(p: StudentPatch)
  {
    p.name.Some? && p.studentType.Some? && p.region.Some? && p.age.Some? &&
    p.startDate.Some? && p.parentInfo.Some? && p.phoneNumber.Some?
  }

  /** The entity `create` builds under `id`: the class defaults (state NORMAL,
      description '') overwritten by the supplied fields. */
  function NewStudent(id: int, p: StudentPatch): Student
    requires HasRequiredColumns(p)
  {
    Student(
      id, p.name.value, p.state.GetOr(Normal), p.studentType.value, p.region.value, p.age.value,
      p.description.GetOr(""), p.startDate.value, p.endDate, p.parentInfo.value, p.phoneNumber.value)
  }

  /** An update of the stored columns: each supplied field overwrites, every other stays. */
  function ApplyPatch(s: Student, p: StudentPatch): Student
  {
    Student(
      s.id,
      p.name.GetOr(s.name),
      p.state.GetOr(s.state),
      p.studentType.GetOr(s.studentType),
      p.region.GetOr(s.region),
      p.age.GetOr(s.age),
      p.description.GetOr(s.description),
      p.startDate.GetOr(s.startDate),
      if p.endDate.Some? then p.endDate else s.endDate,
      p.parentInfo.GetOr(s.parentInfo),
      p.phoneNumber.GetOr(s.phoneNumber))
  }

  /** A created student is NORMAL with an empty description unless those are supplied. */
  lemma NewStudentDefaults(id: int, p: StudentPatch)
    requires HasRequiredColumns(p)
    ensures NewStudent(id, p).id == id
    ensures NewStudent(id, p).state == (if p.state.Some? then p.state.value else Normal)
    ensures NewStudent(id, p).description == (if p.description.Some? then p.description.value else "")
    ensures NewStudent(id, p).endDate == p.endDate
  {
  }

  /** Creating is patching a blank entity that carries the class defaults: any
      record with state NORMAL, empty description and no end date, patched with
      a complete patch, is the created student. */
  lemma NewStudentIsPatchedDefaults(id: int, p: StudentPatch, blank: Student)
    requires HasRequiredColumns(p)
    requires blank.id == id && blank.state == Normal && blank.description == "" && blank.endDate == None
    ensures ApplyPatch(blank, p) == NewStudent(id, p)
  {
  }

  /** An update changes exactly the supplied fields, keeps the id, and an empty
      patch would change nothing. */
  lemma ApplyPatchOnlySupplied(s: Student, p: StudentPatch)
    ensures var r := ApplyPatch(s, p);
      && r.id == s.id
      && (p.name.Some? ==> r.name == p.name.value) && (p.name.None? ==> r.name == s.name)
      && (p.state.Some? ==> r.state == p.state.value) && (p.state.None? ==> r.state == s.state)
      && (p.studentType.Some? ==> r.studentType == p.studentType.value) && (p.studentType.None? ==> r.studentType == s.studentType)
      && (p.region.Some? ==> r.region == p.region.value) && (p.region.None? ==> r.region == s.region)
      && (p.age.Some? ==> r.age == p.age.value) && (p.age.None? ==> r.age == s.age)
      && (p.description.Some? ==> r.description == p.description.value) && (p.description.None? ==> r.description == s.description)
      && (p.startDate.Some? ==> r.startDate == p.startDate.value) && (p.startDate.None? ==> r.startDate == s.startDate)
      && (p.endDate.Some? ==> r.endDate == p.endDate) && (p.endDate.None? ==> r.endDate == s.endDate)
      && (p.parentInfo.Some? ==> r.parentInfo == p.parentInfo.value) && (p.parentInfo.None? ==> r.parentInfo == s.parentInfo)
      && (p.phoneNumber.Some? ==> r.phoneNumber == p.phoneNumber.value) && (p.phoneNumber.None? ==> r.phoneNumber == s.phoneNumber)
    ensures IsEmptyPatch(p) ==> ApplyPatch(s, p) == s
  {
  }

  /** Applying the same patch twice is the same as applying it once. */
  lemma ApplyPatchIdempotent(s: Student, p: StudentPatch)
    ensures ApplyPatch(ApplyPatch(s, p), p) == ApplyPatch(s, p)
  {
  }

  /** The soft delete touches the state column only. */
  lemma SoftDeleteOnlyState(s: Student)
    ensures ApplyPatch(s, DeletedPatch) == s.(state := Deleted)
  {
  }

  class StudentStore {
    var students: map<int, Student>
    /** the next generated primary key */
    var nextId: int

    ghost predicate Valid()
      reads this
    {
      nextId >= 1 && forall k :: k in students ==> students[k].id == k && 1 <= k < nextId
    }

    constructor ()
      ensures Valid() && students == map[] && nextId == 1
    {
      students := map[];
      nextId := 1;
    }

    /** `createStudent`: builds the entity with its defaults and saves it under a fresh id. */
    method CreateStudent(p: StudentPatch) returns (res: Result<Student, StoreError>)
      requires Valid()
      modifies this
      ensures Valid()
      ensures !HasRequiredColumns(p) ==>
        res == Err(MissingRequiredColumn) && students == old(students) && nextId == old(nextId)
      ensures HasRequiredColumns(p) ==>
        && res == Ok(NewStudent(old(nextId), p))
        && old(nextId) !in old(students)
        && students == old(students)[old(nextId) := res.value]
        && nextId == old(nextId) + 1
    {
      if !HasRequiredColumns(p) {
        return Err(MissingRequiredColumn);
      }
      var s := NewStudent(nextId, p);
      students := students[nextId := s];
      nextId := nextId + 1;
      res := Ok(s);
    }

    /** `getStudents`: every stored student once, soft-deleted ones included, in id order. */
    method GetStudents() returns (r: seq<Student>)
      requires Valid()
      ensures forall k :: k in students ==> students[k] in r
      ensures forall k :: k in students ==> multiset(r)[students[k]] == 1
      ensures forall x :: x in r ==> x.id in students && students[x.id] == x
    {
      r := Tables.ValuesInRange(students, 1, nextId);
      var ks := Tables.KeysInRange(students.Keys, 1, nextId);
      forall i, j | 0 <= i < j < |r| ensures r[i] != r[j] {
        assert r[i].id == ks[i] && r[j].id == ks[j];
      }
      forall k | k in students ensures students[k] in r && multiset(r)[students[k]] == 1 {
        assert k in ks;
        var i :| 0 <= i < |ks| && ks[i] == k;
        assert r[i] == students[k];
        Tables.DistinctCount(r, students[k]);
      }
    }

    /** `getStudentById`: the student with that id, or null. */
    method GetStudentById(id: int) returns (r: Option<Student>)
      ensures id in students ==> r == Some(students[id])
      ensures id !in students ==> r == None
    {
      r := if id in students then Some(students[id]) else None;
    }

    /** `updateStudent`: overwrites the supplied fields of the row with that id, if
        any, and returns the row as read back afterwards. */
    method UpdateStudent(id: int, p: StudentPatch) returns (res: Result<Option<Student>, StoreError>)
      requires Valid()
      modifies this
      ensures Valid() && nextId == old(nextId)
      ensures IsEmptyPatch(p) ==> res == Err(UpdateValuesMissing) && students == old(students)
      ensures !IsEmptyPatch(p) && id in old(students) ==>
        && students == old(students)[id := ApplyPatch(old(students)[id], p)]
        && res == Ok(Some(students[id]))
      ensures !IsEmptyPatch(p) && id !in old(students) ==>
        students == old(students) && res == Ok(None)
    {
      if IsEmptyPatch(p) {
        return Err(UpdateValuesMissing);
      }
      if id in students {
        students := students[id := ApplyPatch(students[id], p)];
      }
      var reread := GetStudentById(id);
      res := Ok(reread);
    }

    /** `deleteStudent`: a soft delete; the row stays and only its state becomes DELETED. */
    method DeleteStudent(id: int)
      requires Valid()
      modifies this
      ensures Valid() && nextId == old(nextId)
      ensures id in old(students) ==> students == old(students)[id := old(students)[id].(state := Deleted)]
      ensures id !in old(students) ==> students == old(students)
    {
      if id in students {
        SoftDeleteOnlyState(students[id]);
        students := students[id := ApplyPatch(students[id], DeletedPatch)];
      }
    }
  }
}
