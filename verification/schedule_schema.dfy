/** A session in an event's schedule; times are milliseconds since the epoch. */
module ScheduleSchema {
  import opened Base

  datatype Schedule = Schedule(
    id: Id, eventId: Id, title: string, description: Option<string>, speaker: Option<string>,
    startTime: int, endTime: int, createdBy: Option<Id>)

  /** Saving a schedule: `eventId`, a non-empty `title` and both times are
      required (an invalid date fails the cast); otherwise None. */
  function NewSchedule(id: Id, eventId: Option<Id>, title: Option<string>,
                       description: Option<string>, speaker: Option<string>,
                       startTime: Option<int>, endTime: Option<int>,
                       createdBy: Option<Id>): (r: Option<Schedule>)
    ensures r.Some? <==>
      eventId.Some? && title.Some? && title.value != "" && startTime.Some? && endTime.Some?
    ensures r.Some? ==>
      r.value.id == id && r.value.eventId == eventId.value && r.value.title == title.value
      && r.value.description == description && r.value.speaker == speaker
      && r.value.startTime == startTime.value && r.value.endTime == endTime.value
      && r.value.createdBy == createdBy
  {
    if eventId.None? || title.None? || title.value == "" || startTime.None? || endTime.None?
    then None
    else Some(Schedule(id, eventId.value, title.value, description, speaker,
                       startTime.value, endTime.value, createdBy))
  }
}
