# Scheduly schedule and student core, modelled in Dafny

Scheduly is a lesson scheduler for a small academy. Its back end stores
students and dated lesson schedules. A schedule may be marked recurring and
may name a parent schedule, which groups a weekly series. Its browser client
shows the schedules on a calendar. A dialog creates and edits them, and a
second dialog searches students. This project models:

- `ScheduleService` (`schedule_service.dfy`): the schedule service over a
  table `id -> Schedule` and a student lookup. It covers listing by date,
  create, update with `single`/`future` scope, and delete with
  `single`/`future` scope. Each store method is proved against a pure
  specification function (`UpdateSpec`, `DeleteSpec`, `ByDate`), and the
  lemmas state what those functions promise.
- `StudentService` (`student_service.dfy`): the student repository. It covers
  create with the entity defaults, listing, lookup, field-by-field update, and
  soft delete (the row stays, its state becomes `DELETED`).
- `ScheduleApi` (`schedule_api.dfy`): the payloads the client sends for
  create, update and delete.
- `ScheduleModal` (`schedule_modal.dfy`): the create/edit dialog. It covers
  the half-hour time list (a loop), date trimming, the starting form in each
  mode, the field setters, the submit guards, and the dialog state as a class.
- `StudentSearchModal` (`student_search_modal.dfy`): the case-insensitive
  filter by name or region, the type and state labels, and the dialog state.
- `ScheduleCalendar` (`schedule_calendar.dfy`): schedules as calendar events,
  and the handler state machine with its past-date guards.
- Support modules: `Wrappers` (Option/Result), `Text` (JavaScript string
  comparison, `includes`, ASCII `toLowerCase`, `trim`, `toString`,
  `padStart`), `Tables` (walking an auto-increment id range in order) and
  `FrontendTypes` (the client's records).

Modelling choices:

- Back-end dates are integers, so they are ordered instants. Client dates are
  strings and are compared with JavaScript string order (`Text.StrLess`).
- A field the caller leaves out is `None`. Prisma leaves a column unchanged
  when its value is `undefined`, and drops a filter condition whose value is
  `undefined`.
- `||` treats `""`, `0` and `false` as missing.
- The store classes hand out ids from a counter, as the auto-increment keys do.

What the code does with recurring schedules, stated plainly:

- Nothing expands a weekly series into occurrences. `create` inserts one row
  (apps/backend/src/services/schedule.service.ts:49). A `future` update
  removes children and then rewrites the target row only, although the code's
  own comment at apps/backend/src/services/schedule.service.ts:107 calls that
  step creating a new recurring schedule.
- The cut-off of a `future` update is the requested `date`, not the stored
  row's date. When no date is sent, every child of the target is removed.
- A `future` delete removes the target itself and the rows whose parent is
  the target, dated on or after it. When the target is a child that no row
  names as parent, only the target goes, and later siblings of the same
  series stay (`ScheduleService.FutureDeleteOfChildKeepsSiblings`).

## Model

| member | source | states |
|---|---|---|
| ScheduleService.ScheduleStore.FindAll | apps/backend/src/services/schedule.service.ts:11-20 | the listing is sorted by date and holds every stored schedule exactly once and nothing else |
| ScheduleService.ByDateListsEachRowOnce | apps/backend/src/services/schedule.service.ts:11-20 | for a table whose keys are the rows' ids below the counter, the date-ordered listing is sorted, lists each row once, and every listed entry is the stored row under its id |
| ScheduleService.InsertByDate | apps/backend/src/services/schedule.service.ts:16-18 | inserting into a date-sorted list keeps it sorted and adds exactly that one element |
| ScheduleService.SortByDate | apps/backend/src/services/schedule.service.ts:16-18 | the result is sorted by date and is a permutation of the input |
| ScheduleService.ScheduleStore.Create | apps/backend/src/services/schedule.service.ts:23-55 | an unknown student fails with no change; otherwise one new row under a fresh id is added, built by `NewRow`, and all other rows stay |
| ScheduleService.NewRowDefaults | apps/backend/src/services/schedule.service.ts:36-47 | with the optional fields left out, the row gets the title "<name> 수업", is not recurring, and has no rule, no end date and no parent |
| ScheduleService.NewRowKeepsSupplied | apps/backend/src/services/schedule.service.ts:32-43 | the student's external id, the times and the date reach the row; a non-empty title or rule is kept; the row is recurring exactly when `isRecurring` is true |
| ScheduleService.ScheduleStore.Update | apps/backend/src/services/schedule.service.ts:58-125 | the result and the new table are those of `UpdateSpec` on the old table; the id invariant is kept |
| ScheduleService.UpdateFailsWithoutChange | apps/backend/src/services/schedule.service.ts:59-74 | a missing schedule, a missing student id or an unknown student gives the matching error and leaves the table unchanged |
| ScheduleService.UpdateSingleTouchesOnlyTarget | apps/backend/src/services/schedule.service.ts:117-124 | in `single` scope, or on a non-recurring row, only the target changes, under its own id, and every key stays |
| ScheduleService.UpdateFutureTruncatesChildren | apps/backend/src/services/schedule.service.ts:95-115 | in `future` scope on a recurring row, exactly the target's children dated on or after the requested date go (all of them when no date is sent); earlier children and unrelated rows stay; a target that removed itself is reported not found |
| ScheduleService.UpdateParentLink | apps/backend/src/services/schedule.service.ts:89-93 | an explicit null clears the parent, a non-zero id sets it, and leaving it out keeps the stored parent |
| ScheduleService.UpdateOmittedFields | apps/backend/src/services/schedule.service.ts:76-87 | omitted times and date keep their stored values; an omitted title, flag, rule or end date is reset to its default |
| ScheduleService.CreateThenUpdateEndTime | apps/backend/src/services/schedule.service.ts:58-124 | creating a one-off row and then changing only its end time gives one row with the new end time and the old date |
| ScheduleService.ScheduleStore.Delete | apps/backend/src/services/schedule.service.ts:128-158 | the outcome and the new table are those of `DeleteSpec` on the old table; the id invariant is kept |
| ScheduleService.DeleteMissingFails | apps/backend/src/services/schedule.service.ts:129-135 | deleting an unknown id is a not-found error |
| ScheduleService.DeleteSingleRemovesOnlyTarget | apps/backend/src/services/schedule.service.ts:152-157 | in `single` scope, or on a non-recurring row, exactly that row is removed |
| ScheduleService.DeleteFutureRemovesTargetAndLaterChildren | apps/backend/src/services/schedule.service.ts:137-151 | in `future` scope on a recurring row, the target goes, and of the other rows exactly the children dated on or after it go |
| ScheduleService.DeleteTwiceFails | apps/backend/src/services/schedule.service.ts:128-158 | a second delete of the same id fails as not found |
| ScheduleService.FutureDeleteOfChildKeepsSiblings | apps/backend/src/services/schedule.service.ts:139-151 | a `future` delete of a child that no row names as parent removes that child alone |
| ScheduleService.FutureDeleteOfRootRemovesSeries | apps/backend/src/services/schedule.service.ts:137-151 | a `future` delete of a series root whose children are all dated on or after it removes the root and all its children, and nothing else |
| StudentService.StudentStore.CreateStudent | apps/backend/src/services/student.service.ts:14-17 | a record missing a required column fails with no change; otherwise `NewStudent` is stored under a fresh id |
| StudentService.NewStudentDefaults | apps/backend/src/entities/student.entity.ts:23-36 | a created student is NORMAL with an empty description unless those are supplied, and has the supplied end date |
| StudentService.NewStudentIsPatchedDefaults | apps/backend/src/services/student.service.ts:14-16 | creating is the same as applying the complete record to a blank entity with the class defaults |
| StudentService.StudentStore.GetStudents | apps/backend/src/services/student.service.ts:19-21 | every stored student is listed exactly once, and every listed entry is the stored student under its id |
| StudentService.StudentStore.GetStudentById | apps/backend/src/services/student.service.ts:23-25 | the stored student under that id, or none when the id is unknown |
| StudentService.StudentStore.UpdateStudent | apps/backend/src/services/student.service.ts:27-30 | an empty patch fails with no change; otherwise the supplied fields of an existing row are overwritten, and the row is read back (none when the id is unknown) |
| StudentService.ApplyPatchOnlySupplied | apps/backend/src/services/student.service.ts:27-28 | an update keeps the id; each of the ten columns takes the supplied value when one is given and keeps its stored value otherwise; an empty patch changes nothing |
| StudentService.ApplyPatchIdempotent | apps/backend/src/services/student.service.ts:27-28 | applying the same patch twice equals applying it once |
| StudentService.StudentStore.DeleteStudent | apps/backend/src/services/student.service.ts:32-34 | an existing row stays, with only its state set to DELETED; an unknown id changes nothing |
| StudentService.SoftDeleteOnlyState | apps/backend/src/services/student.service.ts:33 | the soft-delete patch touches the state column only |
| ScheduleApi.ToISOString | apps/frontend/src/api/schedule.ts:4-7 | null exactly for an undefined or empty date; otherwise the conversion of that date |
| ScheduleApi.CreatePayload | apps/frontend/src/api/schedule.ts:19-28 | recurring exactly for a weekly form; the weekly rule or null; no end date unless weekly; the form's student id and times are passed on |
| ScheduleApi.UpdatePayload | apps/frontend/src/api/schedule.ts:37-50 | the same fields as a create of the same form, plus the edit scope unchanged |
| ScheduleApi.PayloadKeepsRecurrence | apps/frontend/src/api/schedule.ts:25-27 | the form's recurrence type, and a weekly series' end date, can be read back from the payload |
| ScheduleModal.FormatDate | apps/frontend/src/components/schedule/ScheduleModal.tsx:24-26 | the result is the prefix of the input up to its first 'T', and holds no 'T' |
| ScheduleModal.FormatDateOfJoin | apps/frontend/src/components/schedule/ScheduleModal.tsx:24-26 | cutting `d + "T" + rest` gives back `d` when `d` has no 'T' |
| ScheduleModal.TimeOptions | apps/frontend/src/components/schedule/ScheduleModal.tsx:42-49 | 48 entries, the i-th being hour i/2 and minute 0 or 30, zero-padded |
| ScheduleModal.SlotLabelIsClockTime | apps/frontend/src/components/schedule/ScheduleModal.tsx:46 | every entry is an "HH:MM" clock time, 30·i minutes after midnight |
| ScheduleModal.SlotLabelsAscending | apps/frontend/src/components/schedule/ScheduleModal.tsx:42-49 | the list is strictly ascending in string order |
| ScheduleModal.SlotLabelBounds | apps/frontend/src/components/schedule/ScheduleModal.tsx:44-46 | the list starts at "00:00" and ends at "23:30" |
| ScheduleModal.ClockOrder | apps/frontend/src/components/schedule/ScheduleModal.tsx:122 | for "HH:MM" strings, string order is the order of minutes since midnight |
| ScheduleModal.WithFieldChangesOnlyThatField | apps/frontend/src/components/schedule/ScheduleModal.tsx:91-96 | the named field takes the new value; every other field keeps its value; writing back a field's own value changes nothing |
| ScheduleModal.WithRecurrenceFieldChangesOnlyThatPart | apps/frontend/src/components/schedule/ScheduleModal.tsx:98-106 | a recurrence change sets one part of the recurrence and keeps the other part and every other field |
| ScheduleModal.EditForm | apps/frontend/src/components/schedule/ScheduleModal.tsx:65-75 | weekly exactly when the schedule is recurring; the end date falls back to 2025-10-15 when missing or empty; a present, non-empty end date becomes its part before the first 'T'; times and student id are copied; the date is cut at 'T' |
| ScheduleModal.EditFormRoundTrip | apps/frontend/src/components/schedule/ScheduleModal.tsx:65-75 | re-submitting an untouched edit form sends back the schedule's own recurrence flag and times |
| ScheduleModal.HandleSubmit | apps/frontend/src/components/schedule/ScheduleModal.tsx:114-133 | no selected student refuses first; with a student, a start time not below the end time refuses; otherwise the form is passed on, with the edit scope only in edit mode |
| ScheduleModal.SubmittedEndsAfterStart | apps/frontend/src/components/schedule/ScheduleModal.tsx:122-125 | a submitted form with clock-time values starts before it ends |
| ScheduleModal.ScheduleModalState.constructor | apps/frontend/src/components/schedule/ScheduleModal.tsx:28-40 | the initial form (09:00 to 09:30, single, end date 2025-10-15), no student selected, search closed, scope single |
| ScheduleModal.ScheduleModalState.OnOpen | apps/frontend/src/components/schedule/ScheduleModal.tsx:51-79 | opening in create mode resets the form to `CreateForm` (18:00 to 21:00, single, end date 2025-10-15) and clears the selected student; in edit mode the form becomes `EditForm` of the schedule; closed, nothing changes; the edit scope is kept |
| ScheduleModal.ScheduleModalState.StudentFetched | apps/frontend/src/components/schedule/ScheduleModal.tsx:81-84 | the fetched student becomes the selection, and nothing else changes |
| ScheduleModal.ScheduleModalState.HandleInputChange | apps/frontend/src/components/schedule/ScheduleModal.tsx:91-96 | the form becomes `WithField` of the old form; nothing else changes |
| ScheduleModal.ScheduleModalState.HandleRecurrenceChange | apps/frontend/src/components/schedule/ScheduleModal.tsx:98-106 | the form becomes `WithRecurrenceField` of the old form; nothing else changes |
| ScheduleModal.ScheduleModalState.HandleStudentSelect | apps/frontend/src/components/schedule/ScheduleModal.tsx:108-112 | the student is selected, its id is written into the form, and the search dialog closes |
| ScheduleModal.ScheduleModalState.SetStudentSearchOpen | apps/frontend/src/components/schedule/ScheduleModal.tsx:160 | only the search dialog flag changes |
| ScheduleModal.ScheduleModalState.SetEditType | apps/frontend/src/components/schedule/ScheduleModal.tsx:274 | only the edit scope changes |
| ScheduleModal.ScheduleModalState.Submit | apps/frontend/src/components/schedule/ScheduleModal.tsx:114-133 | a submission needs a selected student and a start below the end; the state is unchanged |
| StudentSearchModal.Filter | apps/frontend/src/components/schedule/StudentSearchModal.tsx:32-35 | an order-preserving subsequence holding exactly the matching students, each as often as in the input |
| StudentSearchModal.FilterStudents | apps/frontend/src/components/schedule/StudentSearchModal.tsx:28-38 | a term that trims to empty gives the full list; any other term gives `Filter`; the result is always a subsequence |
| StudentSearchModal.FilterEmptyTermKeepsAll | apps/frontend/src/components/schedule/StudentSearchModal.tsx:32-35 | the empty term matches every student |
| StudentSearchModal.FilterIdempotent | apps/frontend/src/components/schedule/StudentSearchModal.tsx:32-35 | filtering the filtered list again changes nothing |
| StudentSearchModal.FilterIgnoresTermCase | apps/frontend/src/components/schedule/StudentSearchModal.tsx:33-34 | lowercasing the term first gives the same result |
| StudentSearchModal.TypeLabel | apps/frontend/src/components/schedule/StudentSearchModal.tsx:57-64 | only EXAMINEE, DROPPER and ADULT are relabelled; any other code is returned unchanged |
| StudentSearchModal.StateLabel | apps/frontend/src/components/schedule/StudentSearchModal.tsx:66-73 | only NORMAL, GRADUATE and DELETED are relabelled; any other code is returned unchanged |
| StudentSearchModal.LabelsDistinguishServerCodes | apps/frontend/src/components/schedule/StudentSearchModal.tsx:57-73 | every server type and state gets its own label, different from its code |
| StudentSearchModal.StudentSearchState.constructor | apps/frontend/src/components/schedule/StudentSearchModal.tsx:16-19 | empty term, empty lists, not loading |
| StudentSearchModal.StudentSearchState.Open | apps/frontend/src/components/schedule/StudentSearchModal.tsx:21-26 | opening starts loading and resets the term to '', which shows the whole current list |
| StudentSearchModal.StudentSearchState.StudentsLoaded | apps/frontend/src/components/schedule/StudentSearchModal.tsx:40-51 | the loaded list is stored, loading ends, and the shown list is the filter of it by the current term |
| StudentSearchModal.StudentSearchState.LoadFailed | apps/frontend/src/components/schedule/StudentSearchModal.tsx:46-50 | only loading ends |
| StudentSearchModal.StudentSearchState.SetSearchTerm | apps/frontend/src/components/schedule/StudentSearchModal.tsx:105 | the term changes and the shown list is re-filtered |
| ScheduleCalendar.EventOf | apps/frontend/src/components/schedule/ScheduleCalendar.tsx:45-62 | the event has the schedule's id, the student's name as title, "<day>T<time>" as start and end, the student's colour, and is not all-day |
| ScheduleCalendar.CalendarEvents | apps/frontend/src/components/schedule/ScheduleCalendar.tsx:44-63 | one event per schedule, in the same order |
| ScheduleCalendar.EventsKeepIdsAndSchedules | apps/frontend/src/components/schedule/ScheduleCalendar.tsx:44-63 | each event carries its schedule's id, and the schedule can be read back from it |
| ScheduleCalendar.EventStartSplitsBack | apps/frontend/src/components/schedule/ScheduleCalendar.tsx:45-46 | cutting an event's start or end at 'T' gives back the formatted day |
| ScheduleCalendar.PastStaysPast | apps/frontend/src/components/schedule/ScheduleCalendar.tsx:70 | a date refused as past is refused on every later day |
| ScheduleCalendar.CalendarState.constructor | apps/frontend/src/components/schedule/ScheduleCalendar.tsx:28-32 | both dialogs closed, nothing selected, create mode |
| ScheduleCalendar.CalendarState.HandleModalClose | apps/frontend/src/components/schedule/ScheduleCalendar.tsx:87-92 | both dialogs closed, no selection, selected date '' |
| ScheduleCalendar.CalendarState.HandleDateClick | apps/frontend/src/components/schedule/ScheduleCalendar.tsx:65-79 | a past day changes nothing; any other day opens the dialog in create mode for that day with no selection |
| ScheduleCalendar.CalendarState.HandleEventClick | apps/frontend/src/components/schedule/ScheduleCalendar.tsx:81-85 | the event's schedule is selected and the detail dialog opens |
| ScheduleCalendar.CalendarState.HandleScheduleSubmit | apps/frontend/src/components/schedule/ScheduleCalendar.tsx:94-101 | create in create mode, update of the selected schedule's id in edit mode, then both dialogs close; edit mode with no selection throws and changes nothing |
| ScheduleCalendar.CalendarState.HandleScheduleEdit | apps/frontend/src/components/schedule/ScheduleCalendar.tsx:103-116 | a past schedule changes nothing; otherwise it is selected and the dialog opens in edit mode in place of the detail dialog |
| ScheduleCalendar.CalendarState.HandleScheduleDelete | apps/frontend/src/components/schedule/ScheduleCalendar.tsx:118-129 | a past schedule is not forwarded and nothing changes; otherwise its id and scope are forwarded and both dialogs close |
| Text.StrLessFirstDiff | apps/frontend/src/components/schedule/ScheduleModal.tsx:122 | string `<` is decided by the first differing character |
| Text.StrLessTransitive | apps/frontend/src/components/schedule/ScheduleCalendar.tsx:70 | string `<` is transitive |
| Text.StrLessTrichotomy | apps/frontend/src/components/schedule/ScheduleCalendar.tsx:70 | exactly one of `a < b`, `a == b`, `b < a` holds |
| Text.ContainsIff | apps/frontend/src/components/schedule/StudentSearchModal.tsx:33-34 | `includes` holds exactly when the term occurs at some index |
| Text.ToLower | apps/frontend/src/components/schedule/StudentSearchModal.tsx:33-34 | same length, and each character is lowercased |
| Text.TrimEmptyIff | apps/frontend/src/components/schedule/StudentSearchModal.tsx:29 | a string trims to '' exactly when all its characters are whitespace |
| Text.TwoDigits | apps/frontend/src/components/schedule/ScheduleModal.tsx:46 | below 100, `toString().padStart(2, '0')` gives the two decimal digits |

## Left out

- Date and time-zone conversion is not modelled. `new Date(...).toISOString()` is an opaque instant tagged with its source string (`ScheduleApi.IsoOf`). The calendar's local `formatDate` and "today" are parameters.
- `toLowerCase` covers the ASCII letters only. Other case mappings are not modelled.
- Strings are sequences of Unicode scalar values. JavaScript compares UTF-16 code units, so for characters outside the Basic Multilingual Plane `Text.StrLess` can order differently from `<` (U+1F600 against U+FF5E, say). The dates and times the code compares are ASCII, where the two agree.
- Prisma and TypeORM internals are not modelled. This covers `include` joins, relation `connect`/`disconnect` (replaced by assigning the foreign-key fields), referential checks on parent or student ids, `onDelete` behaviour, and transactions. The two writes of a `future` update are modelled as sequential and non-atomic.
- Concurrent requests are not modelled.
- The HTTP controllers, the DTO validation pipe, the status mapping and `main`/module wiring are left out. The store models every update field as optional, whatever the whitelist strips.
- Authentication, seeding, colour assignment and the axios/logging glue are foreign calls and are not part of this model.
- The async fetch glue (`getStudents`, `getStudent`, `SchedulePage` refreshes) is left out. Its answers are the `StudentsLoaded`, `LoadFailed` and `StudentFetched` steps.
- Rendering, alerts and the detail dialog are left out, along with the calendar's `dayCellClassNames` past-day class and the "no results" message.
- ScheduleApi.DeletePayload: only builds the request from the id and scope; it has no contract of its own.
- StudentService.StudentStore.GetStudents: lists in id order; the database's own order of `find()` is not specified.
- ScheduleService.ScheduleStore.FindAll: promises a date-sorted permutation; the order among rows with equal dates is not the database's.
- StudentService.StudentStore.CreateStudent: does not accept a caller-supplied `id` in the partial record; the key always comes from the counter.
- An `editType` other than `future` acts as `single`, which is how the code treats it.
- The client reads `studentId` and `color` on schedule and student records whose declared types lack them. The model gives the records those fields.
