/**
 * The create/edit schedule dialog: the list of selectable half-hour times,
 * the ISO-date trimming, the form state and its change handlers, the form
 * the dialog starts from in each mode, and the guards a submission passes.
 */
module ScheduleModal {
  import opened Wrappers
  import opened Text
  import opened FrontendTypes
  import ScheduleApi

  datatype Mode = Create | Edit

  /** The recurrence end date the form falls back to. */
  const DefaultEndDate := "2025-10-15"

  // ---------------------------------------------------------------------------
  // Dates and times as strings
  // ---------------------------------------------------------------------------

  /** `formatDate`: `isoDate.split('T')[0]`, the part before the first 'T'. */
  function FormatDate(iso: string): (r: string)
    ensures 'T' !in r
    ensures r <= iso
    ensures r == iso || iso[|r|] == 'T'
  {
    if iso == [] || iso[0] == 'T' then [] else [iso[0]] + FormatDate(iso[1..])
  }

  /** Splitting `d + "T" + rest` at its first 'T' gives back `d` when `d` has no 'T'. */
  lemma {:induction false} FormatDateOfJoin(d: string, rest: string)
    requires 'T' !in d
    ensures FormatDate(d + "T" + rest) == d
  {
    if d != [] {
      assert (d + "T" + rest)[1..] == d[1..] + "T" + rest;
      FormatDateOfJoin(d[1..], rest);
    }
  }

  predicate IsDigit(c: char)
  {
    '0' <= c <= '9'
  }

  function DigitValue(c: char): nat
    requires IsDigit(c)
  {
    c as int - '0' as int
  }

  /** A zero-padded wall-clock time "HH:MM" with minutes below 60. */
  predicate IsClockTime(s: string)
  {
    |s| == 5 && IsDigit(s[0]) && IsDigit(s[1]) && s[2] == ':' && IsDigit(s[3]) && IsDigit(s[4])
    && DigitValue(s[3]) < 6
  }

  /** Minutes since midnight of a clock time. */
  function ClockMinutes(s: string): nat
    requires IsClockTime(s)
  {
    (10 * DigitValue(s[0]) + DigitValue(s[1])) * 60 + 10 * DigitValue(s[3]) + DigitValue(s[4])
  }

  /** For zero-padded "HH:MM" strings, string order is clock order; this is what
      makes the string comparison of the submit guard a time comparison. */
  lemma ClockOrder(a: string, b: string)
    requires IsClockTime(a) && IsClockTime(b)
    ensures StrLess(a, b) <==> ClockMinutes(a) < ClockMinutes(b)
  {
    if a[0] != b[0] {
      StrLessFirstDiff(a, b, 0);
    } else if a[1] != b[1] {
      StrLessFirstDiff(a, b, 1);
    } else if a[3] != b[3] {
      assert a[..3] == b[..3];
      StrLessFirstDiff(a, b, 3);
    } else if a[4] != b[4] {
      assert a[..4] == b[..4];
      StrLessFirstDiff(a, b, 4);
    } else {
      assert a == b;
      StrLessIrreflexive(a);
    }
  }

  /** `n.toString().padStart(2, '0')`. */
  function Pad2(n: nat): string
  {
    PadStart(NatToString(n), 2, '0')
  }

  /** The `i`-th entry of the time list: hour `i / 2`, minute 0 or 30. */
  function SlotLabel(i: nat): string
    requires i < 48
  {
    Pad2(i / 2) + ":" + Pad2((i % 2) * 30)
  }

  /** `timeOptions`: the nested hour/minute loops pushing one label per half hour. */
  method TimeOptions() returns (r: seq<string>)
    ensures |r| == 48
    ensures forall i :: 0 <= i < 48 ==> r[i] == SlotLabel(i)
  {
    r := [];
    var hour := 0;
    while hour < 24
      invariant 0 <= hour <= 24
      invariant |r| == 2 * hour
      invariant forall i :: 0 <= i < |r| ==> r[i] == SlotLabel(i)
    {
      var minute := 0;
      while minute < 60
        invariant minute == 0 || minute == 30 || minute == 60
        invariant |r| == 2 * hour + minute / 30
        invariant forall i :: 0 <= i < |r| ==> r[i] == SlotLabel(i)
      {
        var timeStr := Pad2(hour) + ":" + Pad2(minute);
        assert timeStr == SlotLabel(|r|);
        r := r + [timeStr];
        minute := minute + 30;
      }
      hour := hour + 1;
    }
  }

  lemma DigitCharValue(d: nat)
    requires d < 10
    ensures IsDigit(DigitChar(d)) && DigitValue(DigitChar(d)) == d
  {
  }

  /** Every entry is a zero-padded clock time, `30 * i` minutes after midnight. */
  lemma SlotLabelIsClockTime(i: nat)
    requires i < 48
    ensures IsClockTime(SlotLabel(i))
    ensures ClockMinutes(SlotLabel(i)) == 30 * i
  {
    var h, m := i / 2, (i % 2) * 30;
    TwoDigits(h);
    TwoDigits(m);
    DigitCharValue(h / 10);
    DigitCharValue(h % 10);
    DigitCharValue(m / 10);
    DigitCharValue(m % 10);
    var s := SlotLabel(i);
    assert s == [DigitChar(h / 10), DigitChar(h % 10), ':', DigitChar(m / 10), DigitChar(m % 10)];
  }

  /** The list runs from "00:00" to "23:30" and is strictly ascending in string order. */
  lemma SlotLabelsAscending(i: nat, j: nat)
    requires i < j < 48
    ensures StrLess(SlotLabel(i), SlotLabel(j))
  {
    SlotLabelIsClockTime(i);
    SlotLabelIsClockTime(j);
    ClockOrder(SlotLabel(i), SlotLabel(j));
  }

  lemma SlotLabelBounds()
    ensures SlotLabel(0) == "00:00"
    ensures SlotLabel(47) == "23:30"
  {
    TwoDigits(0);
    TwoDigits(23);
    TwoDigits(30);
  }

  // ---------------------------------------------------------------------------
  // Form fields and their setters
  // ---------------------------------------------------------------------------

  datatype FormField = StudentIdField | StartTimeField | EndTimeField | DateField | RecurrenceField

  datatype FieldValue = IntValue(n: int) | TextValue(text: string) | RecurrenceValue(recurrence: RecurrenceOption)

  /** The kind of value each field holds. */
  predicate Fits(f: FormField, v: FieldValue)
  {
    match f
    case StudentIdField => v.IntValue?
    case RecurrenceField => v.RecurrenceValue?
    case _ => v.TextValue?
  }

  function Get(form: ScheduleFormData, f: FormField): (v: FieldValue)
    ensures Fits(f, v)
  {
    match f
    case StudentIdField => IntValue(form.studentId)
    case StartTimeField => TextValue(form.startTime)
    case EndTimeField => TextValue(form.endTime)
    case DateField => TextValue(form.date)
    case RecurrenceField => RecurrenceValue(form.recurrence)
  }

  /** `handleInputChange(field, value)`: `{ ...prev, [field]: value }`. */
  function WithField(form: ScheduleFormData, f: FormField, v: FieldValue): ScheduleFormData
    requires Fits(f, v)
  {
    match f
    case StudentIdField => form.(studentId := v.n)
    case StartTimeField => form.(startTime := v.text)
    case EndTimeField => form.(endTime := v.text)
    case DateField => form.(date := v.text)
    case RecurrenceField => form.(recurrence := v.recurrence)
  }

  /** The named field takes the new value and every other field keeps its value;
      writing back a field's own value changes nothing. */
  lemma WithFieldChangesOnlyThatField(form: ScheduleFormData, f: FormField, v: FieldValue)
    requires Fits(f, v)
    ensures Get(WithField(form, f, v), f) == v
    ensures forall g :: g != f ==> Get(WithField(form, f, v), g) == Get(form, g)
    ensures WithField(form, f, Get(form, f)) == form
  {
  }

  datatype RecurrenceField = KindField | EndDateField

  /** `handleRecurrenceChange(field, value)`: `{ ...prev, recurrence: { ...prev.recurrence, [field]: value } }`. */
  function WithRecurrenceField(form: ScheduleFormData, f: RecurrenceField, kind: RecurrenceType, endDate: string): ScheduleFormData
  {
    var r := form.recurrence;
    WithField(form, RecurrenceField, RecurrenceValue(if f == KindField then r.(kind := kind) else r.(endDate := Some(endDate))))
  }

  /** A recurrence change sets one part of the recurrence and keeps the other
      part and every other form field. */
  lemma WithRecurrenceFieldChangesOnlyThatPart(form: ScheduleFormData, f: RecurrenceField, kind: RecurrenceType, endDate: string)
    ensures var r := WithRecurrenceField(form, f, kind, endDate);
      && (forall g :: g != RecurrenceField ==> Get(r, g) == Get(form, g))
      && (f == KindField ==> r.recurrence.kind == kind && r.recurrence.endDate == form.recurrence.endDate)
      && (f == EndDateField ==> r.recurrence.endDate == Some(endDate) && r.recurrence.kind == form.recurrence.kind)
  {
    WithFieldChangesOnlyThatField(form, RecurrenceField,
      RecurrenceValue(if f == KindField then form.recurrence.(kind := kind) else form.recurrence.(endDate := Some(endDate))));
  }

  // ---------------------------------------------------------------------------
  // The form each mode starts from
  // ---------------------------------------------------------------------------

  /** The form the dialog starts from in create mode. */
  function CreateForm(selectedDate: string): ScheduleFormData
  {
    ScheduleFormData(0, "18:00", "21:00", selectedDate, RecurrenceOption(SingleDay, Some(DefaultEndDate)))
  }

  /** The form the dialog starts from when editing `s`. */
  function EditForm(s: ScheduleView): (r: ScheduleFormData)
    ensures r.recurrence.kind == Weekly <==> s.isRecurring
    ensures s.recurrenceEndDate.None? || s.recurrenceEndDate.value == "" ==> r.recurrence.endDate == Some(DefaultEndDate)
    ensures s.recurrenceEndDate.Some? && s.recurrenceEndDate.value != "" ==>
      r.recurrence.endDate == Some(FormatDate(s.recurrenceEndDate.value))
    ensures r.recurrence.endDate.Some? && 'T' !in r.recurrence.endDate.value
    ensures r.studentId == s.studentId && r.startTime == s.startTime && r.endTime == s.endTime
    ensures r.date == FormatDate(s.date)
  {
    ScheduleFormData(
      s.studentId,
      s.startTime,
      s.endTime,
      FormatDate(s.date),
      RecurrenceOption(
        if s.isRecurring then Weekly else SingleDay,
        Some(if s.recurrenceEndDate.Some? && s.recurrenceEndDate.value != ""
             then FormatDate(s.recurrenceEndDate.value) else DefaultEndDate)))
  }

  /** Re-submitting an edit form that was left as it was sends the schedule's own
      recurrence flag and times back. */
  lemma EditFormRoundTrip(s: ScheduleView)
    ensures ScheduleApi.CreatePayload(EditForm(s)).isRecurring == s.isRecurring
    ensures ScheduleApi.CreatePayload(EditForm(s)).startTime == s.startTime
    ensures ScheduleApi.CreatePayload(EditForm(s)).endTime == s.endTime
  {
  }

  // ---------------------------------------------------------------------------
  // Submission
  // ---------------------------------------------------------------------------

  datatype SubmitOutcome =
    | NoStudentSelected
    | EndNotAfterStart
    | Submitted(data: SubmitData)

  /** `handleSubmit`: refuses without a selected student, then refuses unless the
      start time is below the end time in string order; otherwise submits the
      form with the edit scope in edit mode and none in create mode. */
  function HandleSubmit(selected: Option<StudentView>, form: ScheduleFormData, mode: Mode, editType: Scope): (r: SubmitOutcome)
    ensures r.Submitted? <==> selected.Some? && StrLess(form.startTime, form.endTime)
    ensures selected.None? ==> r == NoStudentSelected
    ensures selected.Some? && !StrLess(form.startTime, form.endTime) ==> r == EndNotAfterStart
    ensures r.Submitted? ==> r.data.form == form
    ensures r.Submitted? ==> r.data.editType == (if mode == Edit then Some(editType) else None)
  {
    if selected.None? then NoStudentSelected
    else if !StrLess(form.startTime, form.endTime) then EndNotAfterStart
    else Submitted(SubmitData(form, if mode == Edit then Some(editType) else None))
  }

  /** A submitted form whose times come from the time list ends after it starts. */
  lemma SubmittedEndsAfterStart(selected: Option<StudentView>, form: ScheduleFormData, mode: Mode, editType: Scope)
    requires IsClockTime(form.startTime) && IsClockTime(form.endTime)
    requires HandleSubmit(selected, form, mode, editType).Submitted?
    ensures ClockMinutes(form.startTime) < ClockMinutes(form.endTime)
  {
    ClockOrder(form.startTime, form.endTime);
  }

  // ---------------------------------------------------------------------------
  // The dialog's state
  // ---------------------------------------------------------------------------

  class ScheduleModalState {
    var formData: ScheduleFormData
    var selectedStudent: Option<StudentView>
    var isStudentSearchOpen: bool
    var editType: Scope

    /** The initial component state. */
    constructor (selectedDate: string)
      ensures formData == ScheduleFormData(0, "09:00", "09:30", selectedDate, RecurrenceOption(SingleDay, Some(DefaultEndDate)))
      ensures selectedStudent == None && !isStudentSearchOpen && editType == Single
    {
      formData := ScheduleFormData(0, "09:00", "09:30", selectedDate, RecurrenceOption(SingleDay, Some(DefaultEndDate)));
      selectedStudent := None;
      isStudentSearchOpen := false;
      editType := Single;
    }

    /** The effect that runs when the dialog opens: create mode resets the form and
        the selected student; edit mode loads the schedule into the form (its
        student arrives later, see StudentFetched) and keeps the last edit scope. */
    method OnOpen(isOpen: bool, mode: Mode, selectedDate: string, selectedSchedule: Option<ScheduleView>)
      modifies this
      ensures isOpen && mode == Create ==> formData == CreateForm(selectedDate) && selectedStudent == None
      ensures isOpen && mode == Edit && selectedSchedule.Some? ==>
        formData == EditForm(selectedSchedule.value) && selectedStudent == old(selectedStudent)
      ensures !isOpen || (mode == Edit && selectedSchedule.None?) ==>
        formData == old(formData) && selectedStudent == old(selectedStudent)
      ensures editType == old(editType) && isStudentSearchOpen == old(isStudentSearchOpen)
    {
      if isOpen {
        if mode == Create {
          formData := CreateForm(selectedDate);
          selectedStudent := None;
        } else if selectedSchedule.Some? {
          formData := EditForm(selectedSchedule.value);
        }
      }
    }

    /** The student lookup of edit mode has answered. */
    method StudentFetched(student: StudentView)
      modifies this
      ensures selectedStudent == Some(student)
      ensures formData == old(formData) && editType == old(editType) && isStudentSearchOpen == old(isStudentSearchOpen)
    {
      selectedStudent := Some(student);
    }

    method HandleInputChange(f: FormField, v: FieldValue)
      requires Fits(f, v)
      modifies this
      ensures formData == WithField(old(formData), f, v)
      ensures selectedStudent == old(selectedStudent) && editType == old(editType) && isStudentSearchOpen == old(isStudentSearchOpen)
    {
      formData := WithField(formData, f, v);
    }

    method HandleRecurrenceChange(f: RecurrenceField, kind: RecurrenceType, endDate: string)
      modifies this
      ensures formData == WithRecurrenceField(old(formData), f, kind, endDate)
      ensures selectedStudent == old(selectedStudent) && editType == old(editType) && isStudentSearchOpen == old(isStudentSearchOpen)
    {
      formData := WithRecurrenceField(formData, f, kind, endDate);
    }

    /** Picking a student in the search dialog selects it, copies its id into the
        form and closes the search dialog. */
    method HandleStudentSelect(student: StudentView)
      modifies this
      ensures selectedStudent == Some(student)
      ensures formData == WithField(old(formData), StudentIdField, IntValue(student.id))
      ensures !isStudentSearchOpen && editType == old(editType)
    {
      selectedStudent := Some(student);
      HandleInputChange(StudentIdField, IntValue(student.id));
      isStudentSearchOpen := false;
    }

    /** The search button opens the student search dialog, its close button closes it. */
    method SetStudentSearchOpen(open: bool)
      modifies this
      ensures isStudentSearchOpen == open
      ensures formData == old(formData) && selectedStudent == old(selectedStudent) && editType == old(editType)
    {
      isStudentSearchOpen := open;
    }

    method SetEditType(t: Scope)
      modifies this
      ensures editType == t
      ensures formData == old(formData) && selectedStudent == old(selectedStudent) && isStudentSearchOpen == old(isStudentSearchOpen)
    {
      editType := t;
    }

    /** Submitting: what `onSubmit` receives, if anything; the state is unchanged. */
    method Submit(mode: Mode) returns (r: SubmitOutcome)
      ensures r == HandleSubmit(selectedStudent, formData, mode, editType)
      ensures r.Submitted? ==> selectedStudent.Some? && StrLess(formData.startTime, formData.endTime)
    {
      r := HandleSubmit(selectedStudent, formData, mode, editType);
    }
  }
}
