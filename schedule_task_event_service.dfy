/**
 * The state-changing half of the log service: best-effort recording of a
 * task run (start, end, error), pruning of expired events and clearing the
 * log. Every fault raised while recording is caught, written to the error
 * log and turned into a null result.
 */
module Services {
  import opened Wrappers
  import opened Domain
  import opened Data
  import Linq

  const StartFailedMessage: string := "Cannot log the start of the schedule task event"
  const EndFailedMessage: string := "Cannot log the end of the schedule task event"
  const ErrorFailedMessage: string := "Cannot log the error of the schedule task event"

  /** One `ILogger.Error(message, exception)` entry. */
  datatype LogEntry = LogEntry(message: string, fault: Fault)

  /** The injected current-time helper; its `UtcNow` moves as time passes. */
  class CurrentDateTimeHelper {
    var utcNow: Ticks

    constructor (utcNow: Ticks)
      ensures this.utcNow == utcNow
    {
      this.utcNow := utcNow;
    }
  }

  /** The event `RecordEventStart` hands back when recording succeeds. */
  function Opened(taskId: int, now: Ticks, customerId: Option<int>): (r: EventRecord)
    ensures r.id == 0 && r.scheduleTaskId == taskId && r.eventStartDateUtc == now
    ensures r.isStartedManually <==> customerId.Some?
    ensures r.triggeredByCustomerId == customerId
    ensures !r.isError && r.exceptionMessage.None? && r.exceptionDetails.None?
  {
    if customerId.Some? then MarkedManual(Started(taskId, now), customerId.value)
    else Started(taskId, now)
  }

  /** `UtcNow.AddDays(LogExpiryDays * -1)`: events started before it are expired. */
  function PruneCutoff(now: Ticks, logExpiryDays: int): (cutoff: Ticks)
    ensures now - cutoff == logExpiryDays * TicksPerDay
    ensures logExpiryDays > 0 ==> cutoff < now
  {
    now + (logExpiryDays * -1) * TicksPerDay
  }

  /** An event pruning keeps: it did not start before the cutoff. */
  predicate Retained(e: EventRecord, cutoff: Ticks)
  {
    !(e.eventStartDateUtc < cutoff)
  }

  /** The table after deleting every event that started before `cutoff`. */
  function Pruned(rows: seq<EventRecord>, cutoff: Ticks): (r: seq<EventRecord>)
    ensures |r| <= |rows|
    ensures forall i :: 0 <= i < |r| ==> r[i].eventStartDateUtc >= cutoff
  {
    Linq.Where(rows, (e: EventRecord) => Retained(e, cutoff))
  }

  /** Pruning deletes exactly the events that started strictly before the cutoff. */
  lemma PruneDeletesExactlyTheExpired(rows: seq<EventRecord>, cutoff: Ticks)
    ensures forall e :: e in Pruned(rows, cutoff) <==> e in rows && e.eventStartDateUtc >= cutoff
    ensures forall e :: e in rows && e !in Pruned(rows, cutoff) ==> e.eventStartDateUtc < cutoff
  {
    Linq.WhereMembers(rows, (e: EventRecord) => Retained(e, cutoff));
  }

  /**
   * With now = 20 March and a 14-day expiry, events of 4 and 5 March go, the
   * event of 6 March (exactly at the cutoff) and a later one stay.
   */
  lemma FourteenDayPruneBoundary(midnight20March: Ticks, e4: EventRecord, e5: EventRecord, e6: EventRecord, e19: EventRecord)
    requires e4.eventStartDateUtc == midnight20March - 16 * TicksPerDay
    requires e5.eventStartDateUtc == midnight20March - 15 * TicksPerDay
    requires e6.eventStartDateUtc == midnight20March - 14 * TicksPerDay
    requires e19.eventStartDateUtc == midnight20March - TicksPerDay
    ensures Pruned([e4, e5, e6, e19], PruneCutoff(midnight20March, 14)) == [e6, e19]
  {
    var cutoff := PruneCutoff(midnight20March, 14);
    var keep := (e: EventRecord) => Retained(e, cutoff);
    assert [e4, e5, e6, e19][1..] == [e5, e6, e19];
    assert [e5, e6, e19][1..] == [e6, e19];
    assert [e6, e19][1..] == [e19];
    assert Linq.Where([e19], keep) == [e19];
    assert Linq.Where([e6, e19], keep) == [e6, e19];
    assert Linq.Where([e5, e6, e19], keep) == [e6, e19];
  }

  /** Pruning twice with the same cutoff deletes nothing more. */
  lemma PruneIsIdempotent(rows: seq<EventRecord>, cutoff: Ticks)
    ensures Pruned(Pruned(rows, cutoff), cutoff) == Pruned(rows, cutoff)
  {
    var keep := (e: EventRecord) => Retained(e, cutoff);
    Linq.WhereWhere(rows, keep, keep, keep);
  }

  /** A longer retention period keeps everything a shorter one keeps. */
  lemma LongerRetentionKeepsMore(rows: seq<EventRecord>, now: Ticks, shorter: int, longer: int)
    requires shorter <= longer
    ensures forall e :: e in Pruned(rows, PruneCutoff(now, shorter)) ==> e in Pruned(rows, PruneCutoff(now, longer))
  {
    PruneDeletesExactlyTheExpired(rows, PruneCutoff(now, shorter));
    PruneDeletesExactlyTheExpired(rows, PruneCutoff(now, longer));
    assert PruneCutoff(now, longer) <= PruneCutoff(now, shorter) by {
      assert (longer - shorter) * TicksPerDay >= 0;
    }
  }

  class ScheduleTaskEventService {
    /** Null when no helper was injected. */
    const currentDateTimeHelper: CurrentDateTimeHelper?
    const settings: Settings
    const repository: EventRepository
    /** What the service wrote to `ILogger`. */
    var errorLog: seq<LogEntry>

    ghost predicate Valid()
      reads this, repository
    {
      repository.Valid()
    }

    constructor (currentDateTimeHelper: CurrentDateTimeHelper?, settings: Settings, repository: EventRepository)
      requires repository.Valid()
      ensures Valid()
      ensures this.currentDateTimeHelper == currentDateTimeHelper && this.settings == settings
      ensures this.repository == repository && errorLog == []
    {
      this.currentDateTimeHelper := currentDateTimeHelper;
      this.settings := settings;
      this.repository := repository;
      errorLog := [];
    }

    /** The clock as the domain sees it: `UtcNow` now, or absent with no helper. */
    function CurrentClock(): (c: Option<Clock>)
      reads currentDateTimeHelper
      ensures c.Some? <==> currentDateTimeHelper != null
    {
      if currentDateTimeHelper == null then None else Some(Clock(currentDateTimeHelper.utcNow))
    }

    /**
     * Starts an event for `scheduleTask`, marked manual when a customer id is
     * given. A failing start is logged once and yields null.
     */
    method RecordEventStart(scheduleTask: Option<ScheduleTask>, customerId: Option<int>) returns (ev: ScheduleTaskEvent?)
      modifies this
      ensures CurrentClock().None? ==>
        ev == null && errorLog == old(errorLog) + [LogEntry(StartFailedMessage, ArgumentNull("currentDateTimeHelper"))]
      ensures CurrentClock().Some? && scheduleTask.None? ==>
        ev == null && errorLog == old(errorLog) + [LogEntry(StartFailedMessage, ArgumentNull("scheduleTask"))]
      ensures CurrentClock().Some? && scheduleTask.Some? ==>
        ev != null && fresh(ev) && errorLog == old(errorLog) &&
        ev.Record() == Opened(scheduleTask.value.id, CurrentClock().value.utcNow, customerId)
    {
      var started := ScheduleTaskEvent.Start(CurrentClock(), scheduleTask);
      if started.Err? {
        errorLog := errorLog + [LogEntry(StartFailedMessage, started.fault)];
        return null;
      }
      ev := started.value;
      if customerId.Some? {
        ev := ev.SetTriggeredManually(customerId.value);
      }
    }

    /**
     * Ends `ev` and inserts it. A null event is ignored; a fault while ending
     * or inserting is logged once and yields null (an event already ended
     * stays ended). `insertFails` stands for the store throwing.
     */
    method RecordEventEnd(ev: ScheduleTaskEvent?, insertFails: bool) returns (r: ScheduleTaskEvent?)
      requires Valid()
      modifies this, repository, ev
      ensures Valid()
      ensures ev == null ==>
        r == null && errorLog == old(errorLog) && repository.rows == old(repository.rows) && repository.nextId == old(repository.nextId)
      ensures ev != null && CurrentClock().None? ==>
        r == null && ev.Record() == old(ev.Record()) &&
        repository.rows == old(repository.rows) && repository.nextId == old(repository.nextId) &&
        errorLog == old(errorLog) + [LogEntry(EndFailedMessage, ArgumentNull("currentDateTimeHelper"))]
      ensures ev != null && CurrentClock().Some? && insertFails ==>
        r == null && ev.Record() == Ended(old(ev.Record()), CurrentClock().value.utcNow) &&
        repository.rows == old(repository.rows) && repository.nextId == old(repository.nextId) &&
        errorLog == old(errorLog) + [LogEntry(EndFailedMessage, InsertFailure)]
      ensures ev != null && CurrentClock().Some? && !insertFails ==>
        r == ev && errorLog == old(errorLog) &&
        ev.Record() == Ended(old(ev.Record()), CurrentClock().value.utcNow).(id := old(repository.nextId)) &&
        repository.rows == old(repository.rows) + [ev.Record()] && repository.nextId == old(repository.nextId) + 1
    {
      if ev == null {
        return null;
      }
      var ended := ev.End(CurrentClock());
      if ended.Err? {
        errorLog := errorLog + [LogEntry(EndFailedMessage, ended.fault)];
        return null;
      }
      var inserted := repository.Insert(ev, insertFails);
      if inserted.Fail? {
        errorLog := errorLog + [LogEntry(EndFailedMessage, inserted.fault)];
        return null;
      }
      return ev;
    }

    /**
     * Marks `ev` as failed with the caught exception `exc`, ends it and
     * inserts it; null events and faults are handled as in `RecordEventEnd`.
     */
    method RecordEventError(ev: ScheduleTaskEvent?, exc: Option<ExceptionInfo>, insertFails: bool) returns (r: ScheduleTaskEvent?)
      requires Valid()
      modifies this, repository, ev
      ensures Valid()
      ensures ev == null ==>
        r == null && errorLog == old(errorLog) && repository.rows == old(repository.rows) && repository.nextId == old(repository.nextId)
      ensures ev != null && CurrentClock().None? ==>
        r == null && ev.Record() == old(ev.Record()) &&
        repository.rows == old(repository.rows) && repository.nextId == old(repository.nextId) &&
        errorLog == old(errorLog) + [LogEntry(ErrorFailedMessage, ArgumentNull("currentDateTimeHelper"))]
      ensures ev != null && CurrentClock().Some? && insertFails ==>
        r == null && ev.Record() == Errored(old(ev.Record()), CurrentClock().value.utcNow, exc) &&
        repository.rows == old(repository.rows) && repository.nextId == old(repository.nextId) &&
        errorLog == old(errorLog) + [LogEntry(ErrorFailedMessage, InsertFailure)]
      ensures ev != null && CurrentClock().Some? && !insertFails ==>
        r == ev && errorLog == old(errorLog) &&
        ev.Record() == Errored(old(ev.Record()), CurrentClock().value.utcNow, exc).(id := old(repository.nextId)) &&
        repository.rows == old(repository.rows) + [ev.Record()] && repository.nextId == old(repository.nextId) + 1
    {
      if ev == null {
        return null;
      }
      var failed := ev.Error(CurrentClock(), exc);
      if failed.Err? {
        errorLog := errorLog + [LogEntry(ErrorFailedMessage, failed.fault)];
        return null;
      }
      var inserted := repository.Insert(ev, insertFails);
      if inserted.Fail? {
        errorLog := errorLog + [LogEntry(ErrorFailedMessage, inserted.fault)];
        return null;
      }
      return ev;
    }

    /** Empties the event table. */
    method ClearLog()
      requires Valid()
      modifies repository
      ensures Valid()
      ensures repository.rows == [] && repository.nextId == old(repository.nextId)
    {
      repository.Truncate();
    }

    /**
     * Deletes the events that started more than `LogExpiryDays` days before
     * now. Reading the time without a helper is a null dereference, which is
     * not caught here.
     */
    method PruneEvents() returns (outcome: Outcome)
      requires Valid()
      modifies repository
      ensures Valid()
      ensures repository.nextId == old(repository.nextId)
      ensures CurrentClock().None? ==> outcome == Fail(NullReference) && repository.rows == old(repository.rows)
      ensures CurrentClock().Some? ==>
        outcome == Pass &&
        repository.rows == Pruned(old(repository.rows), PruneCutoff(CurrentClock().value.utcNow, settings.logExpiryDays))
    {
      if currentDateTimeHelper == null {
        return Fail(NullReference);
      }
      var cutoff := PruneCutoff(currentDateTimeHelper.utcNow, settings.logExpiryDays);
      var expired := (e: EventRecord) => e.eventStartDateUtc < cutoff;
      ghost var before := repository.rows;
      repository.DeleteWhere(expired);
      Linq.WhereSamePredicate(before, (e: EventRecord) => !expired(e), (e: EventRecord) => Retained(e, cutoff));
      return Pass;
    }
  }
}
