/**
 * The calendar page: schedules turned into calendar events, and the handlers
 * that open and close the create/edit and detail dialogs, refuse actions on
 * past dates, and forward create/update/delete requests.
 */
module ScheduleCalendar {
  import opened Wrappers
  import opened Text
  import opened FrontendTypes
  import ScheduleModal

  /** An entry of the `calendarEvents` list handed to the calendar widget. */
  datatype CalendarEvent = CalendarEvent(
    id: string,
    title: string,
    start: string,
    end: string,
    backgroundColor: string,
    borderColor: string,
    allDay: bool,
    /** `extendedProps.schedule`: the schedule the event was made from */
    schedule: ScheduleView)

  /** The event of one schedule; `formatDate` turns the ISO date into the local
      "YYYY-MM-DD" day and is a parameter because it reads the local time zone. */
  function EventOf(s: ScheduleView, formatDate: string -> string): (e: CalendarEvent)
    ensures e.id == s.id && e.title == s.student.name && !e.allDay && e.schedule == s
    ensures e.start == formatDate(s.date) + "T" + s.startTime
    ensures e.end == formatDate(s.date) + "T" + s.endTime
    ensures e.backgroundColor == s.student.color && e.borderColor == s.student.color
  {
    var day := formatDate(s.date);
    CalendarEvent(s.id, s.student.name, day + "T" + s.startTime, day + "T" + s.endTime,
      s.student.color, s.student.color, false, s)
  }

  /** `calendarEvents`: one event per schedule, in the schedules' order. */
  function CalendarEvents(schedules: seq<ScheduleView>, formatDate: string -> string): (r: seq<CalendarEvent>)
    ensures |r| == |schedules|
    ensures forall i :: 0 <= i < |r| ==> r[i] == EventOf(schedules[i], formatDate)
  {
    seq(|schedules|, i requires 0 <= i < |schedules| => EventOf(schedules[i], formatDate))
  }

  /** Each event carries its schedule's id, and the schedule it was made from
      can be read back from it. */
  lemma EventsKeepIdsAndSchedules(schedules: seq<ScheduleView>, formatDate: string -> string)
    ensures forall i :: 0 <= i < |schedules| ==>
      CalendarEvents(schedules, formatDate)[i].id == schedules[i].id &&
      CalendarEvents(schedules, formatDate)[i].schedule == schedules[i]
    ensures |CalendarEvents(schedules, formatDate)| == |schedules|
  {
  }

  /** The day part of an event's start, cut at its first 'T' the way the edit
      dialog cuts dates, is the formatted day of the schedule, provided the
      formatted day has no 'T' of its own. */
  lemma EventStartSplitsBack(s: ScheduleView, formatDate: string -> string)
    requires 'T' !in formatDate(s.date)
    ensures ScheduleModal.FormatDate(EventOf(s, formatDate).start) == formatDate(s.date)
    ensures ScheduleModal.FormatDate(EventOf(s, formatDate).end) == formatDate(s.date)
  {
    ScheduleModal.FormatDateOfJoin(formatDate(s.date), s.startTime);
    ScheduleModal.FormatDateOfJoin(formatDate(s.date), s.endTime);
  }

  /** The past-date test of the handlers: string order against today's date. */
  predicate IsPast(date: string, today: string)
  {
    StrLess(date, today)
  }

  /** A date that is past today stays past on every later day. */
  lemma PastStaysPast(date: string, today: string, later: string)
    requires IsPast(date, today)
    requires today == later || StrLess(today, later)
    ensures IsPast(date, later)
  {
    if today != later {
      StrLessTransitive(date, today, later);
    }
  }

  /** What a submit forwards to the page. */
  datatype SubmitCall =
    | CreateCall(data: SubmitData)
    | UpdateCall(id: string, data: SubmitData)
      /** edit mode with no selected schedule: `selectedSchedule!.id` throws */
    | MissingSelection

  /** What a delete forwards to the page: the schedule id and the delete scope. */
  datatype DeleteCall = DeleteCall(id: string, deleteType: Scope)

  class CalendarState {
    var isModalOpen: bool
    var isDetailModalOpen: bool
    var selectedDate: string
    var selectedSchedule: Option<ScheduleView>
    var modalMode: ScheduleModal.Mode

    /** Both dialogs closed, nothing selected. */
    ghost predicate Closed()
      reads this
    {
      !isModalOpen && !isDetailModalOpen && selectedSchedule == None && selectedDate == ""
    }

    constructor ()
      ensures Closed() && modalMode == ScheduleModal.Create
    {
      isModalOpen := false;
      isDetailModalOpen := false;
      selectedDate := "";
      selectedSchedule := None;
      modalMode := ScheduleModal.Create;
    }

    /** `handleModalClose`. */
    method HandleModalClose()
      modifies this
      ensures Closed() && modalMode == old(modalMode)
    {
      isModalOpen := false;
      isDetailModalOpen := false;
      selectedSchedule := None;
      selectedDate := "";
    }

    /** `handleDateClick`: a past day opens nothing; any other day opens the
        dialog in create mode for that day. */
    method HandleDateClick(clicked: string, today: string) returns (refused: bool)
      modifies this
      ensures refused <==> IsPast(clicked, today)
      ensures refused ==>
        isModalOpen == old(isModalOpen) && isDetailModalOpen == old(isDetailModalOpen) &&
        selectedDate == old(selectedDate) && selectedSchedule == old(selectedSchedule) && modalMode == old(modalMode)
      ensures !refused ==>
        isModalOpen && selectedDate == clicked && modalMode == ScheduleModal.Create &&
        selectedSchedule == None && isDetailModalOpen == old(isDetailModalOpen)
    {
      if IsPast(clicked, today) {
        return true;
      }
      selectedDate := clicked;
      modalMode := ScheduleModal.Create;
      selectedSchedule := None;
      isModalOpen := true;
      refused := false;
    }

    /** `handleEventClick`: selects the event's schedule and opens the detail dialog. */
    method HandleEventClick(e: CalendarEvent)
      modifies this
      ensures selectedSchedule == Some(e.schedule) && isDetailModalOpen
      ensures isModalOpen == old(isModalOpen) && selectedDate == old(selectedDate) && modalMode == old(modalMode)
    {
      selectedSchedule := Some(e.schedule);
      isDetailModalOpen := true;
    }

    /** `handleScheduleSubmit`: create in create mode, update of the selected
        schedule in edit mode, then both dialogs close. */
    method HandleScheduleSubmit(data: SubmitData) returns (call: SubmitCall)
      modifies this
      ensures old(modalMode) == ScheduleModal.Create ==> call == CreateCall(data)
      ensures old(modalMode) == ScheduleModal.Edit && old(selectedSchedule).Some? ==>
        call == UpdateCall(old(selectedSchedule).value.id, data)
      ensures call.MissingSelection? <==> old(modalMode) == ScheduleModal.Edit && old(selectedSchedule).None?
      ensures !call.MissingSelection? ==> Closed() && modalMode == old(modalMode)
      ensures call.MissingSelection? ==>
        isModalOpen == old(isModalOpen) && isDetailModalOpen == old(isDetailModalOpen) &&
        selectedDate == old(selectedDate) && selectedSchedule == old(selectedSchedule) && modalMode == old(modalMode)
    {
      if modalMode == ScheduleModal.Create {
        call := CreateCall(data);
      } else if selectedSchedule.Some? {
        call := UpdateCall(selectedSchedule.value.id, data);
      } else {
        return MissingSelection;
      }
      HandleModalClose();
    }

    /** `handleScheduleEdit`: a schedule dated before today cannot be edited;
        otherwise the detail dialog gives way to the dialog in edit mode. */
    method HandleScheduleEdit(s: ScheduleView, today: string) returns (refused: bool)
      modifies this
      ensures refused <==> IsPast(s.date, today)
      ensures refused ==>
        isModalOpen == old(isModalOpen) && isDetailModalOpen == old(isDetailModalOpen) &&
        selectedDate == old(selectedDate) && selectedSchedule == old(selectedSchedule) && modalMode == old(modalMode)
      ensures !refused ==>
        selectedSchedule == Some(s) && modalMode == ScheduleModal.Edit && !isDetailModalOpen && isModalOpen &&
        selectedDate == old(selectedDate)
    {
      if IsPast(s.date, today) {
        return true;
      }
      selectedSchedule := Some(s);
      modalMode := ScheduleModal.Edit;
      isDetailModalOpen := false;
      isModalOpen := true;
      refused := false;
    }

    /** `handleScheduleDelete`: a schedule dated before today cannot be deleted;
        otherwise the delete is forwarded with its scope and both dialogs close. */
    method HandleScheduleDelete(s: ScheduleView, deleteType: Scope, today: string) returns (call: Option<DeleteCall>)
      modifies this
      ensures call.None? <==> IsPast(s.date, today)
      ensures call.Some? ==> call.value == DeleteCall(s.id, deleteType) && Closed() && modalMode == old(modalMode)
      ensures call.None? ==>
        isModalOpen == old(isModalOpen) && isDetailModalOpen == old(isDetailModalOpen) &&
        selectedDate == old(selectedDate) && selectedSchedule == old(selectedSchedule) && modalMode == old(modalMode)
    {
      if IsPast(s.date, today) {
        return None;
      }
      call := Some(DeleteCall(s.id, deleteType));
      HandleModalClose();
    }
  }
}
