/**
 * The request payloads the client's schedule API sends: the recurrence form
 * is flattened into `isRecurring`, `recurrenceRule` and `recurrenceEndDate`,
 * dates are converted to ISO instants, and update and delete forward their
 * scope unchanged.
 */
module ScheduleApi {
  import opened Wrappers
  import opened FrontendTypes

  /** The instant `new Date(s).toISOString()` yields for the date string `s`;
      the calendar conversion itself is not modelled. */
  datatype IsoInstant = IsoOf(source: string)

  const WeeklyRule := "FREQ=WEEKLY"

  /** The body of a create request, and the field part of an update request. */
  datatype SchedulePayload = SchedulePayload(
    studentId: int,
    startTime: string,
    endTime: string,
    date: Option<IsoInstant>,
    isRecurring: bool,
    recurrenceRule: Option<string>,
    recurrenceEndDate: Option<IsoInstant>)

  datatype UpdateRequest = UpdateRequest(id: string, fields: SchedulePayload, editType: Option<Scope>)

  datatype DeleteRequest = DeleteRequest(id: string, deleteType: Scope)

  /** `toISOString`: null for an undefined or empty date, otherwise the converted instant. */
  function ToISOString(date: Option<string>): (r: Option<IsoInstant>)
    ensures r.None? <==> date.None? || date.value == ""
    ensures r.Some? ==> r.value.source == date.value
  {
    if date.None? || date.value == "" then None else Some(IsoOf(date.value))
  }

  /** The payload `createSchedule` posts for a form. */
  function CreatePayload(form: ScheduleFormData): (r: SchedulePayload)
    ensures r.isRecurring <==> form.recurrence.kind == Weekly
    ensures r.recurrenceRule == (if r.isRecurring then Some(WeeklyRule) else None)
    ensures !r.isRecurring ==> r.recurrenceEndDate == None
    ensures r.isRecurring ==> r.recurrenceEndDate == ToISOString(form.recurrence.endDate)
    ensures r.studentId == form.studentId && r.startTime == form.startTime && r.endTime == form.endTime
    ensures r.date == ToISOString(Some(form.date))
  {
    var weekly := form.recurrence.kind == Weekly;
    SchedulePayload(
      form.studentId,
      form.startTime,
      form.endTime,
      ToISOString(Some(form.date)),
      weekly,
      if weekly then Some(WeeklyRule) else None,
      if weekly then ToISOString(form.recurrence.endDate) else None)
  }

  /** The request `updateSchedule` sends: the same fields as a create, plus the edit scope. */
  function UpdatePayload(id: string, data: SubmitData): (r: UpdateRequest)
    ensures r.id == id && r.editType == data.editType
    ensures r.fields == CreatePayload(data.form)
  {
    UpdateRequest(id, CreatePayload(data.form), data.editType)
  }

  /** The request `deleteSchedule` sends. */
  function DeletePayload(id: string, deleteType: Scope): DeleteRequest
  {
    DeleteRequest(id, deleteType)
  }

  /** What the server reads back from a payload: whether the form asked for a weekly series. */
  function RecurrenceTypeOf(p: SchedulePayload): RecurrenceType
  {
    if p.isRecurring then Weekly else SingleDay
  }

  /** The payload keeps the form's recurrence type and, for a weekly series,
      its end date: both can be read back from what is sent. */
  lemma PayloadKeepsRecurrence(form: ScheduleFormData)
    ensures RecurrenceTypeOf(CreatePayload(form)) == form.recurrence.kind
    ensures form.recurrence.kind == Weekly && form.recurrence.endDate.Some? && form.recurrence.endDate.value != "" ==>
      CreatePayload(form).recurrenceEndDate == Some(IsoOf(form.recurrence.endDate.value))
  {
  }
}
