/**
 * The schedule lifecycle of the back end: listing, creating, updating and
 * deleting schedule rows, with the `single` / `future` scopes of update and
 * delete. The store is a table of rows keyed by an auto-increment id; the
 * student directory is a lookup passed in by the caller.
 */
module ScheduleService {
  import opened Wrappers
  import Tables

  /** A stored date-time column, ordered chronologically. */
  type Date = int

  datatype Schedule = Schedule(
    id: int,
    studentExternalId: string,
    title: string,
    startTime: string,
    endTime: string,
    date: Date,
    isRecurring: bool,
    recurrenceRule: Option<string>,
    recurrenceEndDate: Option<Date>,
    parentScheduleId: Option<int>)

  type Table = map<int, Schedule>

  /** What a schedule row takes from the student it is linked to. */
  datatype StudentRef = StudentRef(externalId: string, name: string)

  /** Student directory: student id to student. */
  type Students = map<int, StudentRef>

  /** `editType` / `deleteType`: any value other than 'future' behaves as 'single'. */
  datatype Scope = Single | Future

  datatype CreateInput = CreateInput(
    studentId: int,
    title: Option<string>,
    startTime: string,
    endTime: string,
    date: Date,
    isRecurring: Option<bool>,
    recurrenceRule: Option<string>,
    recurrenceEndDate: Option<Date>,
    parentScheduleId: Option<int>)

  /** `parentScheduleId` of an update: left out, explicitly null, or a value. */
  datatype ParentArg = ParentAbsent | ParentNull | ParentId(parent: int)

  datatype UpdateInput = UpdateInput(
    studentId: Option<int>,
    title: Option<string>,
    startTime: Option<string>,
    endTime: Option<string>,
    date: Option<Date>,
    isRecurring: Option<bool>,
    recurrenceRule: Option<string>,
    recurrenceEndDate: Option<Date>,
    parentScheduleId: ParentArg,
    editType: Scope)

  datatype ServiceError =
    | ScheduleNotFound(id: int)
    | StudentNotFound(studentId: int)
      /** a unique lookup of the student with no key at all */
    | StudentKeyMissing
      /** the row to rewrite was itself removed by the preceding bulk delete */
    | RecordToUpdateNotFound(id: int)

  // ---------------------------------------------------------------------------
  // Field defaults shared by create and update
  // ---------------------------------------------------------------------------

  function DefaultTitle(student: StudentRef): string
  {
    student.name + " 수업"
  }

  /** `title || '<name> 수업'`: an absent or empty title falls back to the default. */
  function TitleOrDefault(title: Option<string>, student: StudentRef): string
  {
    if title.Some? && title.value != "" then title.value else DefaultTitle(student)
  }

  /** `recurrenceRule || null`. */
  function RuleOrNull(rule: Option<string>): Option<string>
  {
    if rule.Some? && rule.value != "" then rule else None
  }

  /** The row `create` inserts under the id `id`. */
  function NewRow(id: int, student: StudentRef, data: CreateInput): Schedule
  {
    Schedule(
      id,
      student.externalId,
      TitleOrDefault(data.title, student),
      data.startTime,
      data.endTime,
      data.date,
      data.isRecurring == Some(true),
      RuleOrNull(data.recurrenceRule),
      data.recurrenceEndDate,
      if data.parentScheduleId.Some? && data.parentScheduleId.value != 0 then data.parentScheduleId else None)
  }

  /** The row `update` writes over `row`: absent time and date fields keep the
      stored value, the title and recurrence fields fall back to their defaults,
      the parent link follows `parentScheduleId`. */
  function UpdatedRow(row: Schedule, student: StudentRef, data: UpdateInput): Schedule
  {
    row.(
      studentExternalId := student.externalId,
      title := TitleOrDefault(data.title, student),
      startTime := data.startTime.GetOr(row.startTime),
      endTime := data.endTime.GetOr(row.endTime),
      date := data.date.GetOr(row.date),
      isRecurring := data.isRecurring == Some(true),
      recurrenceRule := RuleOrNull(data.recurrenceRule),
      recurrenceEndDate := data.recurrenceEndDate,
      parentScheduleId :=
        match data.parentScheduleId
        case ParentAbsent => row.parentScheduleId
        case ParentNull => None
        case ParentId(p) => if p != 0 then Some(p) else row.parentScheduleId)
  }

  // ---------------------------------------------------------------------------
  // The row sets the bulk deletes remove
  // ---------------------------------------------------------------------------

  /** `date >= cutoff`; a missing cutoff drops the condition. */
  predicate OnOrAfter(date: Date, cutoff: Option<Date>)
  {
    cutoff.None? || date >= cutoff.value
  }

  /** A row that names `parent` as its parent and is dated on or after the cutoff. */
  predicate IsLaterChild(row: Schedule, parent: int, cutoff: Option<Date>)
  {
    row.parentScheduleId == Some(parent) && OnOrAfter(row.date, cutoff)
  }

  /** The table after the bulk delete of `parent`'s children from the cutoff on. */
  function WithoutLaterChildren(rows: Table, parent: int, cutoff: Option<Date>): Table
  {
    map k | k in rows && !IsLaterChild(rows[k], parent, cutoff) :: rows[k]
  }

  /** Outcome of `update`: the result and the table afterwards. */
  function UpdateSpec(rows: Table, students: Students, id: int, data: UpdateInput): (Result<Schedule, ServiceError>, Table)
  {
    if id !in rows then (Err(ScheduleNotFound(id)), rows)
    else if data.studentId.None? then (Err(StudentKeyMissing), rows)
    else if data.studentId.value !in students then (Err(StudentNotFound(data.studentId.value)), rows)
    else
      var target := rows[id];
      var row := UpdatedRow(target, students[data.studentId.value], data);
      var pruned := if data.editType == Future && target.isRecurring then WithoutLaterChildren(rows, id, data.date) else rows;
      if id !in pruned then (Err(RecordToUpdateNotFound(id)), pruned)
      else (Ok(row), pruned[id := row])
  }

  /** Outcome of `delete`: the table afterwards. */
  function DeleteSpec(rows: Table, id: int, scope: Scope): Result<Table, ServiceError>
  {
    if id !in rows then Err(ScheduleNotFound(id))
    else if scope == Future && rows[id].isRecurring then
      Ok(map k | k in rows && k != id && !IsLaterChild(rows[k], id, Some(rows[id].date)) :: rows[k])
    else Ok(rows - {id})
  }

  // ---------------------------------------------------------------------------
  // What create, update and delete promise
  // ---------------------------------------------------------------------------

  /** A created row with every optional field left out: default title, not
      recurring, no rule, no end date, no parent. */
  lemma NewRowDefaults(id: int, student: StudentRef, data: CreateInput)
    requires data.title.None? && data.isRecurring.None? && data.recurrenceRule.None?
    requires data.recurrenceEndDate.None? && data.parentScheduleId.None?
    ensures NewRow(id, student, data).id == id
    ensures NewRow(id, student, data).title == student.name + " 수업"
    ensures !NewRow(id, student, data).isRecurring
    ensures NewRow(id, student, data).recurrenceRule == None
    ensures NewRow(id, student, data).recurrenceEndDate == None
    ensures NewRow(id, student, data).parentScheduleId == None
  {
  }

  /** Supplied create fields reach the row unchanged. */
  lemma NewRowKeepsSupplied(id: int, student: StudentRef, data: CreateInput)
    ensures var r := NewRow(id, student, data);
      && r.studentExternalId == student.externalId
      && r.startTime == data.startTime && r.endTime == data.endTime && r.date == data.date
      && (data.title.Some? && data.title.value != "" ==> r.title == data.title.value)
      && (r.isRecurring <==> data.isRecurring == Some(true))
      && (data.recurrenceRule.Some? && data.recurrenceRule.value != "" ==> r.recurrenceRule == data.recurrenceRule)
      && r.recurrenceEndDate == data.recurrenceEndDate
  {
  }

  /** An update that cannot resolve the schedule or the student fails and changes no row. */
  lemma UpdateFailsWithoutChange(rows: Table, students: Students, id: int, data: UpdateInput)
    requires id !in rows || data.studentId.None? || data.studentId.value !in students
    ensures UpdateSpec(rows, students, id, data).0.Err?
    ensures UpdateSpec(rows, students, id, data).1 == rows
    ensures id !in rows ==> UpdateSpec(rows, students, id, data).0 == Err(ScheduleNotFound(id))
    ensures id in rows && data.studentId.Some? && data.studentId.value !in students ==>
      UpdateSpec(rows, students, id, data).0 == Err(StudentNotFound(data.studentId.value))
  {
  }

  /** In `single` scope, or on a non-recurring row, update rewrites the target under
      its own id and leaves every other row as it was. */
  lemma UpdateSingleTouchesOnlyTarget(rows: Table, students: Students, id: int, data: UpdateInput)
    requires id in rows && data.studentId.Some? && data.studentId.value in students
    requires data.editType == Single || !rows[id].isRecurring
    ensures var (res, t) := UpdateSpec(rows, students, id, data);
      && res == Ok(UpdatedRow(rows[id], students[data.studentId.value], data))
      && res.value.id == rows[id].id
      && t.Keys == rows.Keys
      && t[id] == res.value
      && forall k :: k in rows && k != id ==> t[k] == rows[k]
  {
  }

  /** In `future` scope on a recurring row, update removes exactly the rows that
      name the target as parent and are dated on or after the requested date
      (all of them when no date is given), then rewrites the target. */
  lemma UpdateFutureTruncatesChildren(rows: Table, students: Students, id: int, data: UpdateInput)
    requires id in rows && data.studentId.Some? && data.studentId.value in students
    requires data.editType == Future && rows[id].isRecurring
    ensures var (res, t) := UpdateSpec(rows, students, id, data);
      && (forall k :: k in t <==> k in rows && !IsLaterChild(rows[k], id, data.date))
      && (forall k :: k in t && k != id ==> t[k] == rows[k])
      && (forall k :: k in rows && rows[k].parentScheduleId != Some(id) ==> k in t)
      && (forall k :: k in rows && data.date.Some? && rows[k].date < data.date.value ==> k in t)
      && (data.date.None? ==> forall k :: k in rows && rows[k].parentScheduleId == Some(id) ==> k !in t)
      && (!IsLaterChild(rows[id], id, data.date) ==>
            res == Ok(UpdatedRow(rows[id], students[data.studentId.value], data)) && t[id] == res.value)
      && (IsLaterChild(rows[id], id, data.date) ==> res == Err(RecordToUpdateNotFound(id)))
  {
  }

  /** The parent link after an update: an explicit null clears it, a non-zero id
      sets it, and leaving it out (or a falsy zero) keeps the stored one. */
  lemma UpdateParentLink(row: Schedule, student: StudentRef, data: UpdateInput)
    ensures data.parentScheduleId == ParentNull ==> UpdatedRow(row, student, data).parentScheduleId == None
    ensures data.parentScheduleId.ParentId? && data.parentScheduleId.parent != 0 ==>
      UpdatedRow(row, student, data).parentScheduleId == Some(data.parentScheduleId.parent)
    ensures data.parentScheduleId == ParentAbsent ==>
      UpdatedRow(row, student, data).parentScheduleId == row.parentScheduleId
  {
  }

  /** Fields an update leaves out: the id always stays; time and date fields keep
      their stored values; title and recurrence fields are reset to their
      defaults, so an update that omits `isRecurring` leaves a non-recurring row. */
  lemma UpdateOmittedFields(row: Schedule, student: StudentRef, data: UpdateInput)
    ensures UpdatedRow(row, student, data).id == row.id
    ensures data.startTime.None? ==> UpdatedRow(row, student, data).startTime == row.startTime
    ensures data.endTime.None? ==> UpdatedRow(row, student, data).endTime == row.endTime
    ensures data.date.None? ==> UpdatedRow(row, student, data).date == row.date
    ensures data.title.None? ==> UpdatedRow(row, student, data).title == student.name + " 수업"
    ensures data.isRecurring.None? ==> !UpdatedRow(row, student, data).isRecurring
    ensures data.recurrenceRule.None? ==> UpdatedRow(row, student, data).recurrenceRule == None
    ensures data.recurrenceEndDate.None? ==> UpdatedRow(row, student, data).recurrenceEndDate == None
  {
  }

  /** Creating a one-off row and then changing only its end time in `single`
      scope leaves one row under that id, with the new end time and the old date. */
  lemma CreateThenUpdateEndTime(rows: Table, students: Students, id: int, sid: int, data: CreateInput, endTime: string)
    requires id !in rows && sid in students && data.studentId == sid && data.isRecurring != Some(true)
    ensures var t := rows[id := NewRow(id, students[sid], data)];
      var change := UpdateInput(Some(sid), None, None, Some(endTime), None, None, None, None, ParentAbsent, Single);
      var (res, t') := UpdateSpec(t, students, id, change);
      && res.Ok? && res.value.endTime == endTime && res.value.date == data.date
      && t'.Keys == t.Keys && t'[id] == res.value
  {
  }

  lemma DeleteMissingFails(rows: Table, id: int, scope: Scope)
    requires id !in rows
    ensures DeleteSpec(rows, id, scope) == Err(ScheduleNotFound(id))
  {
  }

  /** In `single` scope, or on a non-recurring row, delete removes exactly that row. */
  lemma DeleteSingleRemovesOnlyTarget(rows: Table, id: int, scope: Scope)
    requires id in rows && (scope == Single || !rows[id].isRecurring)
    ensures DeleteSpec(rows, id, scope).Ok?
    ensures DeleteSpec(rows, id, scope).value.Keys == rows.Keys - {id}
    ensures forall k :: k in DeleteSpec(rows, id, scope).value ==> DeleteSpec(rows, id, scope).value[k] == rows[k]
  {
  }

  /** In `future` scope on a recurring row, delete removes the row and the rows
      naming it as parent dated on or after its own date, and nothing else. */
  lemma DeleteFutureRemovesTargetAndLaterChildren(rows: Table, id: int)
    requires id in rows && rows[id].isRecurring
    ensures DeleteSpec(rows, id, Future).Ok?
    ensures var t := DeleteSpec(rows, id, Future).value;
      && id !in t
      && (forall k :: k in rows && k != id ==> (k in t <==> !IsLaterChild(rows[k], id, Some(rows[id].date))))
      && (forall k :: k in t ==> k in rows && t[k] == rows[k])
  {
  }

  /** Deleting an id a second time reports it missing rather than succeeding. */
  lemma DeleteTwiceFails(rows: Table, id: int, scope: Scope, again: Scope)
    requires DeleteSpec(rows, id, scope).Ok?
    ensures DeleteSpec(DeleteSpec(rows, id, scope).value, id, again) == Err(ScheduleNotFound(id))
  {
  }

  /** Children are matched only by their parent link: a `future` delete aimed at
      a child that no row names as parent removes that child alone, and its
      later siblings in the series survive. */
  lemma FutureDeleteOfChildKeepsSiblings(rows: Table, id: int)
    requires id in rows && rows[id].parentScheduleId.Some? && rows[id].parentScheduleId.value != id
    requires forall k :: k in rows ==> rows[k].parentScheduleId != Some(id)
    ensures DeleteSpec(rows, id, Future) == Ok(rows - {id})
  {
    if rows[id].isRecurring {
      var t := DeleteSpec(rows, id, Future).value;
      forall k ensures k in t <==> k in rows - {id} {
        if k in rows && k != id {
          assert !IsLaterChild(rows[k], id, Some(rows[id].date));
        }
      }
      assert t == rows - {id};
    }
  }

  /** A `future` delete of a series root whose children are all dated on or
      after it removes the whole series and no row outside it. */
  lemma FutureDeleteOfRootRemovesSeries(rows: Table, root: int)
    requires root in rows && rows[root].isRecurring
    requires forall k :: k in rows && rows[k].parentScheduleId == Some(root) ==> rows[k].date >= rows[root].date
    ensures DeleteSpec(rows, root, Future).Ok?
    ensures var t := DeleteSpec(rows, root, Future).value;
      forall k :: k in rows ==> (k in t <==> k != root && rows[k].parentScheduleId != Some(root))
  {
  }

  // ---------------------------------------------------------------------------
  // Listing in date order
  // ---------------------------------------------------------------------------

  predicate SortedByDate(s: seq<Schedule>)
  {
    forall i, j :: 0 <= i < j < |s| ==> s[i].date <= s[j].date
  }

  /** A date-ordered list stays ordered when an element no later than all of
      it is put in front. */
  lemma PrependSorted(h: Schedule, t: seq<Schedule>)
    requires SortedByDate(t)
    requires forall i :: 0 <= i < |t| ==> h.date <= t[i].date
    ensures SortedByDate([h] + t)
  {
  }

  /** A bound below `x` and below every member of `t` bounds every member of a
      permutation of `t` plus `x`. */
  lemma LowerBound(h: Schedule, x: Schedule, t: seq<Schedule>, rest: seq<Schedule>)
    requires multiset(rest) == multiset(t) + multiset{x}
    requires h.date <= x.date
    requires forall i :: 0 <= i < |t| ==> h.date <= t[i].date
    ensures forall i :: 0 <= i < |rest| ==> h.date <= rest[i].date
  {
    forall i | 0 <= i < |rest| ensures h.date <= rest[i].date {
      assert rest[i] in multiset(rest);
      if rest[i] != x {
        assert rest[i] in multiset(t);
        var j :| 0 <= j < |t| && t[j] == rest[i];
      }
    }
  }

  function InsertByDate(x: Schedule, s: seq<Schedule>): (r: seq<Schedule>)
    requires SortedByDate(s)
    ensures SortedByDate(r)
    ensures multiset(r) == multiset(s) + multiset{x}
  {
    if s == [] || x.date <= s[0].date then
      PrependSorted(x, s);
      [x] + s
    else
      var rest := InsertByDate(x, s[1..]);
      assert s == [s[0]] + s[1..];
      LowerBound(s[0], x, s[1..], rest);
      PrependSorted(s[0], rest);
      [s[0]] + rest
  }

  function SortByDate(s: seq<Schedule>): (r: seq<Schedule>)
    ensures SortedByDate(r)
    ensures multiset(r) == multiset(s)
  {
    if s == [] then []
    else
      assert s == [s[0]] + s[1..];
      InsertByDate(s[0], SortByDate(s[1..]))
  }

  /** The rows of a table whose ids lie below `nextId`, ordered by date. */
  function ByDate(rows: Table, nextId: int): seq<Schedule>
  {
    SortByDate(Tables.ValuesInRange(rows, 1, nextId))
  }

  lemma ListingDistinct(rows: Table, nextId: int)
    requires forall k :: k in rows ==> rows[k].id == k
    ensures Tables.Distinct(Tables.ValuesInRange(rows, 1, nextId))
  {
    var listed := Tables.ValuesInRange(rows, 1, nextId);
    var ks := Tables.KeysInRange(rows.Keys, 1, nextId);
    forall i, j | 0 <= i < j < |listed| ensures listed[i] != listed[j] {
      assert listed[i].id == ks[i] && listed[j].id == ks[j];
    }
  }

  lemma ListingMembers(rows: Table, nextId: int)
    requires forall k :: k in rows ==> rows[k].id == k && 1 <= k < nextId
    ensures forall k :: k in rows ==> rows[k] in Tables.ValuesInRange(rows, 1, nextId)
    ensures forall x :: x in Tables.ValuesInRange(rows, 1, nextId) ==> x.id in rows && rows[x.id] == x
  {
    var listed := Tables.ValuesInRange(rows, 1, nextId);
    var ks := Tables.KeysInRange(rows.Keys, 1, nextId);
    forall k | k in rows ensures rows[k] in listed {
      assert k in ks;
      var i :| 0 <= i < |ks| && ks[i] == k;
      assert listed[i] == rows[k];
    }
  }

  /** Listing a well-formed table yields each stored row exactly once and nothing else. */
  lemma ByDateListsEachRowOnce(rows: Table, nextId: int)
    requires forall k :: k in rows ==> rows[k].id == k && 1 <= k < nextId
    ensures SortedByDate(ByDate(rows, nextId))
    ensures forall k :: k in rows ==> multiset(ByDate(rows, nextId))[rows[k]] == 1
    ensures forall x :: x in ByDate(rows, nextId) ==> x.id in rows && rows[x.id] == x
  {
    var listed := Tables.ValuesInRange(rows, 1, nextId);
    var r := ByDate(rows, nextId);
    assert multiset(r) == multiset(listed);
    ListingDistinct(rows, nextId);
    ListingMembers(rows, nextId);
    forall k | k in rows ensures multiset(r)[rows[k]] == 1 {
      Tables.DistinctCount(listed, rows[k]);
    }
    forall x | x in r ensures x in listed {
      assert x in multiset(r);
    }
  }

  // ---------------------------------------------------------------------------
  // The service over its table
  // ---------------------------------------------------------------------------

  class ScheduleStore {
    var rows: Table
    /** the next auto-increment id */
    var nextId: int

    ghost predicate Valid()
      reads this
    {
      nextId >= 1 && forall k :: k in rows ==> rows[k].id == k && 1 <= k < nextId
    }

    constructor ()
      ensures Valid() && rows == map[] && nextId == 1
    {
      rows := map[];
      nextId := 1;
    }

    /** `findAll`: every stored row exactly once, ordered by date ascending. */
    method FindAll() returns (r: seq<Schedule>)
      requires Valid()
      ensures SortedByDate(r)
      ensures forall k :: k in rows ==> multiset(r)[rows[k]] == 1
      ensures forall x :: x in r ==> x.id in rows && rows[x.id] == x
    {
      r := ByDate(rows, nextId);
      ByDateListsEachRowOnce(rows, nextId);
    }

    /** `create`: checks the student, then inserts exactly one row under a fresh id. */
    method Create(students: Students, data: CreateInput) returns (res: Result<Schedule, ServiceError>)
      requires Valid()
      modifies this
      ensures Valid()
      ensures data.studentId !in students ==>
        res == Err(StudentNotFound(data.studentId)) && rows == old(rows) && nextId == old(nextId)
      ensures data.studentId in students ==>
        && res == Ok(NewRow(old(nextId), students[data.studentId], data))
        && old(nextId) !in old(rows)
        && rows == old(rows)[old(nextId) := res.value]
        && nextId == old(nextId) + 1
    {
      if data.studentId !in students {
        return Err(StudentNotFound(data.studentId));
      }
      var row := NewRow(nextId, students[data.studentId], data);
      rows := rows[nextId := row];
      nextId := nextId + 1;
      res := Ok(row);
    }

    /** `update` in either scope. */
    method Update(students: Students, id: int, data: UpdateInput) returns (res: Result<Schedule, ServiceError>)
      requires Valid()
      modifies this
      ensures Valid() && nextId == old(nextId)
      ensures (res, rows) == UpdateSpec(old(rows), students, id, data)
    {
      if id !in rows {
        return Err(ScheduleNotFound(id));
      }
      var schedule := rows[id];
      if data.studentId.None? {
        return Err(StudentKeyMissing);
      }
      var studentId := data.studentId.value;
      if studentId !in students {
        return Err(StudentNotFound(studentId));
      }
      var updated := UpdatedRow(schedule, students[studentId], data);
      if data.editType == Future && schedule.isRecurring {
        rows := WithoutLaterChildren(rows, schedule.id, data.date);
      }
      if id !in rows {
        return Err(RecordToUpdateNotFound(id));
      }
      rows := rows[id := updated];
      res := Ok(updated);
    }

    /** `delete` in either scope. */
    method Delete(id: int, scope: Scope) returns (res: Result<(), ServiceError>)
      requires Valid()
      modifies this
      ensures Valid() && nextId == old(nextId)
      ensures DeleteSpec(old(rows), id, scope).Err? ==>
        res == Err(DeleteSpec(old(rows), id, scope).error) && rows == old(rows)
      ensures DeleteSpec(old(rows), id, scope).Ok? ==>
        res == Ok(()) && rows == DeleteSpec(old(rows), id, scope).value
    {
      if id !in rows {
        return Err(ScheduleNotFound(id));
      }
      var schedule := rows[id];
      if scope == Future && schedule.isRecurring {
        rows := map k | k in rows && k != id && !IsLaterChild(rows[k], schedule.id, Some(schedule.date)) :: rows[k];
      } else {
        rows := rows - {id};
      }
      res := Ok(());
    }
  }
}
