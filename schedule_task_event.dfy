/**
 * One recorded execution of a schedule task and its life cycle: it is
 * started, optionally marked as triggered by a customer, and finalized by
 * End or Error, each of which stamps the end time and the elapsed time.
 */
module Domain {
  import opened Wrappers

  /** A `DateTime` as its count of 100-nanosecond ticks; `DateTime.MinValue` is 0. */
  type Ticks = int

  const TicksPerMillisecond: int := 10000
  const TicksPerDay: int := 864000000000

  /** Longest exception message kept on an event. */
  const MaxExceptionMessageLength: nat := 200

  /** The current-time helper: the instant it reports as `UtcNow`. */
  datatype Clock = Clock(utcNow: Ticks)

  /** A task definition owned by the host scheduler. */
  datatype ScheduleTask = ScheduleTask(id: int, name: string, taskType: string)

  /** A caught exception: its `Message` (which may be null) and its `ToString()`. */
  datatype ExceptionInfo = ExceptionInfo(message: Option<string>, fullText: string)

  /** The plugin settings: the logging switch and the retention period in days. */
  datatype Settings = Settings(disableLog: bool, logExpiryDays: int)

  /** The stored shape of an event: every field of the entity. */
  datatype EventRecord = EventRecord(
    id: int,
    scheduleTaskId: int,
    eventStartDateUtc: Ticks,
    eventEndDateUtc: Ticks,
    totalMilliseconds: int,
    isError: bool,
    exceptionMessage: Option<string>,
    exceptionDetails: Option<string>,
    isStartedManually: bool,
    triggeredByCustomerId: Option<int>)

  /** Cuts a possibly-null text down to its first `maxLength` characters. */
  function Truncate(value: Option<string>, maxLength: nat): (r: string)
    ensures value.None? ==> r == ""
    ensures value.Some? && |value.value| <= maxLength ==> r == value.value
    ensures value.Some? && |value.value| > maxLength ==> |r| == maxLength && r == value.value[..maxLength]
    ensures |r| <= maxLength
    ensures value.Some? ==> r == value.value[..|r|]
  {
    if value.None? then ""
    else if |value.value| > maxLength then value.value[..maxLength]
    else value.value
  }

  /**
   * `Convert.ToInt64(TimeSpan.FromTicks(ticks).TotalMilliseconds)`: the tick
   * count in milliseconds, rounded to the nearest integer, ties to even.
   */
  function RoundToMilliseconds(ticks: int): (ms: int)
    ensures -TicksPerMillisecond / 2 <= ticks - ms * TicksPerMillisecond <= TicksPerMillisecond / 2
    ensures ticks - ms * TicksPerMillisecond == TicksPerMillisecond / 2 ==> ms % 2 == 0
    ensures ticks - ms * TicksPerMillisecond == -TicksPerMillisecond / 2 ==> ms % 2 == 0
    ensures ticks % TicksPerMillisecond == 0 ==> ms * TicksPerMillisecond == ticks
  {
    var q := ticks / TicksPerMillisecond;
    var r := ticks % TicksPerMillisecond;
    if r < TicksPerMillisecond / 2 then q
    else if r > TicksPerMillisecond / 2 then q + 1
    else if q % 2 == 0 then q
    else q + 1
  }

  /** The event `Start` creates: the task and the start instant, all else default. */
  function Started(scheduleTaskId: int, now: Ticks): (r: EventRecord)
    ensures r.scheduleTaskId == scheduleTaskId && r.eventStartDateUtc == now
    ensures r.id == 0 && !r.isError && !r.isStartedManually && r.triggeredByCustomerId.None?
    ensures r.exceptionMessage.None? && r.exceptionDetails.None?
  {
    EventRecord(0, scheduleTaskId, now, 0, 0, false, None, None, false, None)
  }

  /** The effect of `SetTriggeredManually`. */
  function MarkedManual(e: EventRecord, customerId: int): (r: EventRecord)
    ensures r.isStartedManually && r.triggeredByCustomerId == Some(customerId)
    ensures r.(isStartedManually := e.isStartedManually, triggeredByCustomerId := e.triggeredByCustomerId) == e
  {
    e.(isStartedManually := true, triggeredByCustomerId := Some(customerId))
  }

  /** The effect of `End` at instant `now`. */
  function Ended(e: EventRecord, now: Ticks): (r: EventRecord)
    ensures r.eventEndDateUtc == now
    ensures r.eventStartDateUtc == e.eventStartDateUtc && r.isError == e.isError
    ensures -TicksPerMillisecond / 2 <= (now - e.eventStartDateUtc) - r.totalMilliseconds * TicksPerMillisecond <= TicksPerMillisecond / 2
    ensures r.(eventEndDateUtc := e.eventEndDateUtc, totalMilliseconds := e.totalMilliseconds) == e
  {
    e.(eventEndDateUtc := now, totalMilliseconds := RoundToMilliseconds(now - e.eventStartDateUtc))
  }

  /** The effect of `Error` at instant `now` with the caught exception `ex`, if any. */
  function Errored(e: EventRecord, now: Ticks, ex: Option<ExceptionInfo>): (r: EventRecord)
    ensures r.isError
    ensures r.eventStartDateUtc == e.eventStartDateUtc
    ensures r.eventEndDateUtc == now && r.totalMilliseconds == Ended(e, now).totalMilliseconds
    ensures ex.Some? ==> r.exceptionDetails == Some(ex.value.fullText)
    ensures ex.Some? ==> r.exceptionMessage.Some? && |r.exceptionMessage.value| <= MaxExceptionMessageLength
    ensures ex.None? ==> r.exceptionMessage == e.exceptionMessage && r.exceptionDetails == e.exceptionDetails
    ensures r.id == e.id && r.scheduleTaskId == e.scheduleTaskId
    ensures r.isStartedManually == e.isStartedManually && r.triggeredByCustomerId == e.triggeredByCustomerId
  {
    var withException :=
      if ex.Some? then
        e.(exceptionMessage := Some(Truncate(ex.value.message, MaxExceptionMessageLength)),
           exceptionDetails := Some(ex.value.fullText))
      else e;
    Ended(withException.(isError := true), now)
  }

  /** Error finalizes exactly like End, except for the error flag and exception fields. */
  lemma ErrorIsEndWithErrorFields(e: EventRecord, now: Ticks, ex: Option<ExceptionInfo>)
    ensures Errored(e, now, ex) ==
      Ended(e, now).(isError := true,
                     exceptionMessage := Errored(e, now, ex).exceptionMessage,
                     exceptionDetails := Errored(e, now, ex).exceptionDetails)
  {
  }

  /** A message longer than 200 characters is stored as exactly its first 200. */
  lemma LongMessageKeepsLeadingCharacters(e: EventRecord, now: Ticks, message: string, fullText: string)
    requires |message| > MaxExceptionMessageLength
    ensures Errored(e, now, Some(ExceptionInfo(Some(message), fullText))).exceptionMessage
            == Some(message[..MaxExceptionMessageLength])
  {
  }

  /** A run from 09:30:00 to 09:30:03 lasts 3000 ms. */
  lemma ThreeSecondRun(taskId: int, start: Ticks)
    ensures Ended(Started(taskId, start), start + 3 * 1000 * TicksPerMillisecond).totalMilliseconds == 3000
  {
  }

  /** Under a clock that does not go backwards the duration is never negative. */
  lemma DurationNonNegative(e: EventRecord, now: Ticks)
    requires now >= e.eventStartDateUtc
    ensures Ended(e, now).totalMilliseconds >= 0
  {
  }

  /** The entity `ScheduleTaskEvent`, updated in place by its methods. */
  class ScheduleTaskEvent {
    var id: int
    var scheduleTaskId: int
    var eventStartDateUtc: Ticks
    var eventEndDateUtc: Ticks
    var totalMilliseconds: int
    var isError: bool
    var exceptionMessage: Option<string>
    var exceptionDetails: Option<string>
    var isStartedManually: bool
    var triggeredByCustomerId: Option<int>

    /** The current field values as a record. */
    function Record(): EventRecord
      reads this
    {
      EventRecord(id, scheduleTaskId, eventStartDateUtc, eventEndDateUtc, totalMilliseconds,
                  isError, exceptionMessage, exceptionDetails, isStartedManually, triggeredByCustomerId)
    }

    /** The object initializer `new() { ScheduleTaskId = .., EventStartDateUtc = .. }`. */
    constructor (scheduleTaskId: int, eventStartDateUtc: Ticks)
      ensures Record() == Started(scheduleTaskId, eventStartDateUtc)
    {
      this.id := 0;
      this.scheduleTaskId := scheduleTaskId;
      this.eventStartDateUtc := eventStartDateUtc;
      this.eventEndDateUtc := 0;
      this.totalMilliseconds := 0;
      this.isError := false;
      this.exceptionMessage := None;
      this.exceptionDetails := None;
      this.isStartedManually := false;
      this.triggeredByCustomerId := None;
    }

    /** Starts an event for `scheduleTask`; the clock is checked before the task. */
    static method Start(clock: Option<Clock>, scheduleTask: Option<ScheduleTask>) returns (r: Result<ScheduleTaskEvent>)
      ensures clock.None? ==> r == Err(ArgumentNull("currentDateTimeHelper"))
      ensures clock.Some? && scheduleTask.None? ==> r == Err(ArgumentNull("scheduleTask"))
      ensures clock.Some? && scheduleTask.Some? ==>
        r.Ok? && fresh(r.value) && r.value.Record() == Started(scheduleTask.value.id, clock.value.utcNow)
    {
      if clock.None? {
        return Err(ArgumentNull("currentDateTimeHelper"));
      }
      if scheduleTask.None? {
        return Err(ArgumentNull("scheduleTask"));
      }
      var ev := new ScheduleTaskEvent(scheduleTask.value.id, clock.value.utcNow);
      return Ok(ev);
    }

    /** Marks the event as triggered by customer `customerId`; returns the event itself. */
    method SetTriggeredManually(customerId: int) returns (self: ScheduleTaskEvent)
      modifies this
      ensures self == this
      ensures Record() == MarkedManual(old(Record()), customerId)
    {
      isStartedManually := true;
      triggeredByCustomerId := Some(customerId);
      return this;
    }

    /** Stamps the end time and the elapsed milliseconds. */
    method End(clock: Option<Clock>) returns (r: Result<ScheduleTaskEvent>)
      modifies this
      ensures clock.None? ==> r == Err(ArgumentNull("currentDateTimeHelper")) && Record() == old(Record())
      ensures clock.Some? ==> r == Ok(this) && Record() == Ended(old(Record()), clock.value.utcNow)
    {
      if clock.None? {
        return Err(ArgumentNull("currentDateTimeHelper"));
      }
      eventEndDateUtc := clock.value.utcNow;
      totalMilliseconds := RoundToMilliseconds(eventEndDateUtc - eventStartDateUtc);
      return Ok(this);
    }

    /** Marks the event as failed, keeps the exception's text, then ends it. */
    method Error(clock: Option<Clock>, ex: Option<ExceptionInfo>) returns (r: Result<ScheduleTaskEvent>)
      modifies this
      ensures clock.None? ==> r == Err(ArgumentNull("currentDateTimeHelper")) && Record() == old(Record())
      ensures clock.Some? ==> r == Ok(this) && Record() == Errored(old(Record()), clock.value.utcNow, ex)
    {
      if clock.None? {
        return Err(ArgumentNull("currentDateTimeHelper"));
      }
      if ex.Some? {
        exceptionMessage := Some(Truncate(ex.value.message, MaxExceptionMessageLength));
        exceptionDetails := Some(ex.value.fullText);
      }
      isError := true;
      r := End(clock);
    }
  }
}
