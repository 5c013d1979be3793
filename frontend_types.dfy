/** The records the browser client passes between its components and the API. */
module FrontendTypes {
  import opened Wrappers

  /** `recurrence.type`: 'single' or 'weekly'. */
  datatype RecurrenceType = SingleDay | Weekly

  datatype RecurrenceOption = RecurrenceOption(kind: RecurrenceType, endDate: Option<string>)

  /** The form state of the schedule modal. */
  datatype ScheduleFormData = ScheduleFormData(
    studentId: int,
    startTime: string,
    endTime: string,
    date: string,
    recurrence: RecurrenceOption)

  /** `editType` / `deleteType`: 'single' or 'future'. */
  datatype Scope = Single | Future

  /** What the modal hands to its `onSubmit`: the form plus the edit scope,
      which is undefined in create mode. */
  datatype SubmitData = SubmitData(form: ScheduleFormData, editType: Option<Scope>)

  /** A student as the client receives it; type and state are the raw codes. */
  datatype StudentView = StudentView(
    id: int,
    name: string,
    region: string,
    studentType: string,
    state: string,
    color: string)

  /** A schedule as the client receives it; dates are ISO strings. */
  datatype ScheduleView = ScheduleView(
    id: string,
    studentId: int,
    student: StudentView,
    title: string,
    startTime: string,
    endTime: string,
    date: string,
    isRecurring: bool,
    recurrenceEndDate: Option<string>)
}
