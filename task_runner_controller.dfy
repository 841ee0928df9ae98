/**
 * The plugin controller the action filter redirects to. `RunNow` runs a task
 * on an administrator's request and `RunTask` runs it for the scheduler; both
 * record the run's start, execute the task, then record its end or its error
 * through the log service.
 *
 * The host's collaborators are abstract: the permission answer, the task
 * definitions the lookups search, the current customer, and what the task
 * runner does (whether it throws and how long the run takes). Calls on them,
 * and on the log service, are kept in a trace.
 */
module Controllers {
  import opened Wrappers
  import opened Domain
  import opened Data
  import opened Services
  import LogQueries
  import Linq

  /** The resource key of the "task was run" notification. */
  const RunNowDoneResource: string := "Admin.System.ScheduleTasks.RunNow.Done"

  /** The exception `RunNow` raises for an id no task has. */
  const TaskNotLoaded: ExceptionInfo :=
    ExceptionInfo(Some("Schedule task cannot be loaded (Parameter 'id')"),
                  "System.ArgumentException: Schedule task cannot be loaded (Parameter 'id')")

  datatype ActionResult =
    | AccessDeniedView
    | RedirectToAction(actionName: string, controllerName: string, area: string)
    | NoContent

  /** A call the controller makes on a collaborator. */
  datatype Call =
    | Authorize
    | GetTaskById(id: int)
    | GetTaskByType(taskType: string)
    | RecordStart(taskId: int, customerId: Option<int>)
    | Execute(taskId: int, forceRun: bool, throwException: bool, ensureRunOncePerPeriod: bool)
    | RecordEnd
    | RecordError(exc: ExceptionInfo)
    | NotifySuccess(resourceKey: string)
    | NotifyError(exc: ExceptionInfo)

  /** The first task of the given type, as the host's lookup returns it. */
  function FindTaskByType(tasks: seq<ScheduleTask>, taskType: string): (r: Option<ScheduleTask>)
    ensures r.Some? ==> r.value in tasks && r.value.taskType == taskType
    ensures r.None? <==> forall t :: t in tasks ==> t.taskType != taskType
  {
    Linq.FirstWhere(tasks, (t: ScheduleTask) => t.taskType == taskType)
  }

  /**
   * The calls of a manual run once the task is found: record the start,
   * execute, then either record the end and report success, or record the
   * error (only when an event was started) and report the exception.
   */
  function ManualRunCalls(task: ScheduleTask, customerId: int, failure: Option<ExceptionInfo>, started: bool): seq<Call>
  {
    [RecordStart(task.id, Some(customerId)), Execute(task.id, true, true, false)] +
    (if failure.None? then [RecordEnd, NotifySuccess(RunNowDoneResource)]
     else (if started then [RecordError(failure.value)] else []) + [NotifyError(failure.value)])
  }

  /** The calls `RunNow` makes, in order. */
  function RunNowCalls(permitted: bool, id: int, task: Option<ScheduleTask>, customerId: int,
                       failure: Option<ExceptionInfo>, started: bool): seq<Call>
  {
    if !permitted then [Authorize]
    else if task.None? then [Authorize, GetTaskById(id), NotifyError(TaskNotLoaded)]
    else [Authorize, GetTaskById(id)] + ManualRunCalls(task.value, customerId, failure, started)
  }

  /** The calls `RunTask` makes, in order. */
  function RunTaskCalls(taskType: string, task: Option<ScheduleTask>, failure: Option<ExceptionInfo>): seq<Call>
  {
    [GetTaskByType(taskType)] +
    if task.None? then []
    else
      [RecordStart(task.value.id, None), Execute(task.value.id, true, true, true)] +
      (if failure.None? then [RecordEnd] else [RecordError(failure.value)])
  }

  /**
   * The row a run leaves in the table: started at `start`, finalized
   * `elapsed` ticks later by End, or by Error with the runner's exception,
   * and numbered `id` by the insert.
   */
  function RecordedRun(taskId: int, customerId: Option<int>, start: Ticks, elapsed: int,
                       failure: Option<ExceptionInfo>, id: int): EventRecord
  {
    var started := Opened(taskId, start, customerId);
    var finished := if failure.None? then Ended(started, start + elapsed) else Errored(started, start + elapsed, failure);
    finished.(id := id)
  }

  /**
   * The rows a run adds: one when a task ran, the clock was there to start
   * the event and the insert succeeded, none otherwise.
   */
  function RunRows(task: Option<ScheduleTask>, customerId: Option<int>, clock: Option<Clock>, elapsed: int,
                   failure: Option<ExceptionInfo>, storeFails: bool, nextId: int): seq<EventRecord>
  {
    if task.None? || clock.None? || storeFails then []
    else [RecordedRun(task.value.id, customerId, clock.value.utcNow, elapsed, failure, nextId)]
  }

  /** What the log service writes to the error log during a run. */
  function RunLog(taskRan: bool, clock: Option<Clock>, failed: bool, storeFails: bool): seq<LogEntry>
  {
    if !taskRan then []
    else if clock.None? then [LogEntry(StartFailedMessage, ArgumentNull("currentDateTimeHelper"))]
    else if !storeFails then []
    else [LogEntry(if failed then ErrorFailedMessage else EndFailedMessage, InsertFailure)]
  }

  /** The kinds of call the properties below count. */
  datatype Kind = Executions | Recordings | Notifications | ErrorNotifications

  predicate IsKind(c: Call, k: Kind)
  {
    match k
    case Executions => c.Execute?
    case Recordings => c.RecordStart? || c.RecordEnd? || c.RecordError?
    case Notifications => c.NotifySuccess? || c.NotifyError?
    case ErrorNotifications => c.NotifyError?
  }

  /** How many calls of `calls` are of kind `k`. */
  function Count(calls: seq<Call>, k: Kind): nat
  {
    if calls == [] then 0 else (if IsKind(calls[0], k) then 1 else 0) + Count(calls[1..], k)
  }

  lemma {:induction false} CountAppend(a: seq<Call>, b: seq<Call>, k: Kind)
    ensures Count(a + b, k) == Count(a, k) + Count(b, k)
  {
    if a == [] {
      assert a + b == b;
    } else {
      assert (a + b)[1..] == a[1..] + b;
      CountAppend(a[1..], b, k);
    }
  }

  lemma CountCons(c: Call, rest: seq<Call>, k: Kind)
    ensures Count([c] + rest, k) == (if IsKind(c, k) then 1 else 0) + Count(rest, k)
  {
    assert ([c] + rest)[1..] == rest;
  }

  /** The recorded row states the run: its start, end, duration, trigger and outcome. */
  lemma RecordedRunFields(taskId: int, customerId: Option<int>, start: Ticks, elapsed: int,
                          failure: Option<ExceptionInfo>, id: int)
    ensures var r := RecordedRun(taskId, customerId, start, elapsed, failure, id);
      r.id == id && r.scheduleTaskId == taskId &&
      r.eventStartDateUtc == start && r.eventEndDateUtc == start + elapsed &&
      r.totalMilliseconds == RoundToMilliseconds(elapsed) &&
      (r.isStartedManually <==> customerId.Some?) && r.triggeredByCustomerId == customerId &&
      (r.isError <==> failure.Some?) &&
      (failure.None? ==> r.exceptionMessage.None? && r.exceptionDetails.None?) &&
      (failure.Some? ==> r.exceptionDetails == Some(failure.value.fullText) &&
                         r.exceptionMessage == Some(Truncate(failure.value.message, MaxExceptionMessageLength)))
  {
  }

  /** Without permission `RunNow` only asks for it: no lookup, recording or execution. */
  lemma RunNowWithoutPermissionDoesNothing(id: int, task: Option<ScheduleTask>, customerId: int,
                                           failure: Option<ExceptionInfo>, started: bool)
    ensures RunNowCalls(false, id, task, customerId, failure, started) == [Authorize]
  {
  }

  /** Once the task is found, a manual run executes it once and raises one notification. */
  lemma ManualRunExecutesOnce(task: ScheduleTask, customerId: int, failure: Option<ExceptionInfo>, started: bool, k: Kind)
    requires k == Executions || k == Notifications
    ensures Count(ManualRunCalls(task, customerId, failure, started), k) == 1
  {
    var head := [RecordStart(task.id, Some(customerId)), Execute(task.id, true, true, false)];
    var tail := if failure.None? then [RecordEnd, NotifySuccess(RunNowDoneResource)]
                else (if started then [RecordError(failure.value)] else []) + [NotifyError(failure.value)];
    CountAppend(head, tail, k);
    CountCons(Execute(task.id, true, true, false), [], k);
    CountCons(RecordStart(task.id, Some(customerId)), [Execute(task.id, true, true, false)], k);
    if failure.None? {
      CountCons(NotifySuccess(RunNowDoneResource), [], k);
      CountCons(RecordEnd, [NotifySuccess(RunNowDoneResource)], k);
    } else if started {
      CountCons(NotifyError(failure.value), [], k);
      CountCons(RecordError(failure.value), [NotifyError(failure.value)], k);
    } else {
      CountCons(NotifyError(failure.value), [], k);
      assert tail == [NotifyError(failure.value)];
    }
  }

  /**
   * `RunNow` executes the task at most once, and exactly once when permitted
   * and the task was found; it raises exactly one notification after the
   * permission check.
   */
  lemma RunNowExecutesAtMostOnce(permitted: bool, id: int, task: Option<ScheduleTask>, customerId: int,
                                 failure: Option<ExceptionInfo>, started: bool)
    ensures Count(RunNowCalls(permitted, id, task, customerId, failure, started), Executions) ==
            (if permitted && task.Some? then 1 else 0)
    ensures Count(RunNowCalls(permitted, id, task, customerId, failure, started), Notifications) ==
            (if permitted then 1 else 0)
  {
    var calls := RunNowCalls(permitted, id, task, customerId, failure, started);
    if !permitted {
      CountCons(Authorize, [], Executions);
      CountCons(Authorize, [], Notifications);
    } else if task.None? {
      RunNowUnknownIdRecordsNothing(id, customerId, failure, started);
    } else {
      var rest := ManualRunCalls(task.value, customerId, failure, started);
      assert calls == [Authorize] + ([GetTaskById(id)] + rest);
      ManualRunExecutesOnce(task.value, customerId, failure, started, Executions);
      ManualRunExecutesOnce(task.value, customerId, failure, started, Notifications);
      CountCons(GetTaskById(id), rest, Executions);
      CountCons(GetTaskById(id), rest, Notifications);
      CountCons(Authorize, [GetTaskById(id)] + rest, Executions);
      CountCons(Authorize, [GetTaskById(id)] + rest, Notifications);
    }
  }

  /** An unknown id fails before the start is recorded, so no error is recorded either. */
  lemma RunNowUnknownIdRecordsNothing(id: int, customerId: int, failure: Option<ExceptionInfo>, started: bool)
    ensures Count(RunNowCalls(true, id, None, customerId, failure, started), Recordings) == 0
    ensures Count(RunNowCalls(true, id, None, customerId, failure, started), Executions) == 0
    ensures Count(RunNowCalls(true, id, None, customerId, failure, started), ErrorNotifications) == 1
    ensures Count(RunNowCalls(true, id, None, customerId, failure, started), Notifications) == 1
  {
    forall k: Kind
      ensures Count(RunNowCalls(true, id, None, customerId, failure, started), k) == (if k == ErrorNotifications || k == Notifications then 1 else 0)
    {
      CountCons(NotifyError(TaskNotLoaded), [], k);
      CountCons(GetTaskById(id), [NotifyError(TaskNotLoaded)], k);
      CountCons(Authorize, [GetTaskById(id), NotifyError(TaskNotLoaded)], k);
    }
  }

  /**
   * A found task is recorded as started before it executes, and finished
   * after: by RecordEnd when it succeeded, by RecordError when it threw and
   * an event was started.
   */
  lemma RunNowOrder(id: int, task: ScheduleTask, customerId: int, failure: Option<ExceptionInfo>, started: bool)
    ensures var calls := RunNowCalls(true, id, Some(task), customerId, failure, started);
      calls[..4] == [Authorize, GetTaskById(id), RecordStart(task.id, Some(customerId)), Execute(task.id, true, true, false)] &&
      (failure.None? ==> calls[4..] == [RecordEnd, NotifySuccess(RunNowDoneResource)]) &&
      (failure.Some? && started ==> calls[4..] == [RecordError(failure.value), NotifyError(failure.value)]) &&
      (failure.Some? && !started ==> calls[4..] == [NotifyError(failure.value)])
  {
  }

  /** A scheduled run of an unknown type only looks the type up. */
  lemma RunTaskUnknownTypeRecordsNothing(taskType: string, failure: Option<ExceptionInfo>)
    ensures RunTaskCalls(taskType, None, failure) == [GetTaskByType(taskType)]
  {
  }

  /** A scheduled run of a found task records start, executes, then records end or error, once each. */
  lemma RunTaskOrder(taskType: string, task: ScheduleTask, failure: Option<ExceptionInfo>)
    ensures var calls := RunTaskCalls(taskType, Some(task), failure);
      calls[..3] == [GetTaskByType(taskType), RecordStart(task.id, None), Execute(task.id, true, true, true)] &&
      |calls| == 4 &&
      (failure.None? <==> calls[3] == RecordEnd) &&
      (failure.Some? ==> calls[3] == RecordError(failure.value))
  {
  }

  /** A successful manual run leaves one row: manual, by the customer, no error, timed. */
  lemma SuccessfulManualRunIsLogged(task: ScheduleTask, customerId: int, now: Ticks, elapsed: nat, nextId: int)
    ensures var rows := RunRows(Some(task), Some(customerId), Some(Clock(now)), elapsed, None, false, nextId);
      |rows| == 1 && rows[0].scheduleTaskId == task.id && rows[0].id == nextId &&
      rows[0].isStartedManually && rows[0].triggeredByCustomerId == Some(customerId) &&
      !rows[0].isError && rows[0].totalMilliseconds == RoundToMilliseconds(elapsed) && rows[0].totalMilliseconds >= 0
  {
    RecordedRunFields(task.id, Some(customerId), now, elapsed, None, nextId);
    DurationNonNegative(Opened(task.id, now, Some(customerId)), now + elapsed);
  }

  /** A failed scheduled run leaves one row: not manual, marked as an error, with the exception's text. */
  lemma FailedScheduledRunIsLogged(task: ScheduleTask, now: Ticks, elapsed: nat, exc: ExceptionInfo, nextId: int)
    ensures var rows := RunRows(Some(task), None, Some(Clock(now)), elapsed, Some(exc), false, nextId);
      |rows| == 1 && !rows[0].isStartedManually && rows[0].triggeredByCustomerId.None? &&
      rows[0].isError && rows[0].exceptionDetails == Some(exc.fullText) &&
      rows[0].exceptionMessage == Some(Truncate(exc.message, MaxExceptionMessageLength)) &&
      rows[0].eventEndDateUtc == now + elapsed
  {
    RecordedRunFields(task.id, None, now, elapsed, Some(exc), nextId);
  }

  class TaskRunnerController {
    const service: ScheduleTaskEventService
    /** The permission service's answer for "manage schedule tasks". */
    const permitted: bool
    /** The task definitions the lookups search. */
    const tasks: seq<ScheduleTask>
    /** The id of the customer of the current request. */
    const currentCustomerId: int
    /** The calls made on collaborators so far. */
    var calls: seq<Call>

    constructor (service: ScheduleTaskEventService, permitted: bool, tasks: seq<ScheduleTask>, currentCustomerId: int)
      ensures this.service == service && this.permitted == permitted && this.tasks == tasks
      ensures this.currentCustomerId == currentCustomerId && calls == []
    {
      this.service := service;
      this.permitted := permitted;
      this.tasks := tasks;
      this.currentCustomerId := currentCustomerId;
      calls := [];
    }

    /** The task runner: the run takes `elapsed` ticks of the service's clock. */
    method RunTaskOnce(task: ScheduleTask, forceRun: bool, throwException: bool, ensureRunOncePerPeriod: bool, elapsed: nat)
      modifies this, service.currentDateTimeHelper
      ensures calls == old(calls) + [Execute(task.id, forceRun, throwException, ensureRunOncePerPeriod)]
      ensures service.currentDateTimeHelper != null ==>
        service.currentDateTimeHelper.utcNow == old(service.currentDateTimeHelper.utcNow) + elapsed
    {
      calls := calls + [Execute(task.id, forceRun, throwException, ensureRunOncePerPeriod)];
      if service.currentDateTimeHelper != null {
        service.currentDateTimeHelper.utcNow := service.currentDateTimeHelper.utcNow + elapsed;
      }
    }

    /**
     * Runs task `id` now for the current customer. `failure` is what the
     * runner throws, `elapsed` how long it runs, `storeFails` whether the
     * event table rejects the insert.
     */
    method RunNow(id: int, failure: Option<ExceptionInfo>, elapsed: nat, storeFails: bool) returns (result: ActionResult)
      requires service.Valid()
      modifies this, service, service.repository, service.currentDateTimeHelper
      ensures service.Valid()
      ensures result == if permitted then RedirectToAction("List", "ScheduleTask", "Admin") else AccessDeniedView
      ensures calls == old(calls) +
        RunNowCalls(permitted, id, LogQueries.FindTask(tasks, id), currentCustomerId, failure, old(service.CurrentClock()).Some?)
      ensures var task := if permitted then LogQueries.FindTask(tasks, id) else None;
        service.repository.rows == old(service.repository.rows) +
          RunRows(task, Some(currentCustomerId), old(service.CurrentClock()), elapsed, failure, storeFails, old(service.repository.nextId)) &&
        service.errorLog == old(service.errorLog) + RunLog(task.Some?, old(service.CurrentClock()), failure.Some?, storeFails)
      ensures var task := if permitted then LogQueries.FindTask(tasks, id) else None;
        service.repository.nextId == old(service.repository.nextId) +
          |RunRows(task, Some(currentCustomerId), old(service.CurrentClock()), elapsed, failure, storeFails, old(service.repository.nextId))|
      ensures var task := if permitted then LogQueries.FindTask(tasks, id) else None;
        service.currentDateTimeHelper != null ==>
          service.currentDateTimeHelper.utcNow == old(service.currentDateTimeHelper.utcNow) + (if task.Some? then elapsed else 0)
    {
      calls := calls + [Authorize];
      if !permitted {
        return AccessDeniedView;
      }
      calls := calls + [GetTaskById(id)];
      var scheduleTask := LogQueries.FindTask(tasks, id);
      if scheduleTask.None? {
        // the lookup throws before an event exists: the handler only reports it
        calls := calls + [NotifyError(TaskNotLoaded)];
      } else {
        RunManually(scheduleTask.value, failure, elapsed, storeFails);
      }
      return RedirectToAction("List", "ScheduleTask", "Admin");
    }

    /**
     * The rest of `RunNow`'s protected block once the task is found, with
     * its exception handler.
     */
    method RunManually(scheduleTask: ScheduleTask, failure: Option<ExceptionInfo>, elapsed: nat, storeFails: bool)
      requires service.Valid()
      modifies this, service, service.repository, service.currentDateTimeHelper
      ensures service.Valid()
      ensures calls == old(calls) + ManualRunCalls(scheduleTask, currentCustomerId, failure, old(service.CurrentClock()).Some?)
      ensures service.repository.rows == old(service.repository.rows) +
        RunRows(Some(scheduleTask), Some(currentCustomerId), old(service.CurrentClock()), elapsed, failure, storeFails, old(service.repository.nextId))
      ensures service.errorLog == old(service.errorLog) + RunLog(true, old(service.CurrentClock()), failure.Some?, storeFails)
      ensures service.repository.nextId == old(service.repository.nextId) +
        |RunRows(Some(scheduleTask), Some(currentCustomerId), old(service.CurrentClock()), elapsed, failure, storeFails, old(service.repository.nextId))|
      ensures service.currentDateTimeHelper != null ==>
        service.currentDateTimeHelper.utcNow == old(service.currentDateTimeHelper.utcNow) + elapsed
    {
      ghost var clock := service.CurrentClock();
      calls := calls + [RecordStart(scheduleTask.id, Some(currentCustomerId))];
      var scheduleTaskEvent := service.RecordEventStart(Some(scheduleTask), Some(currentCustomerId));
      assert clock.None? <==> scheduleTaskEvent == null;
      RunTaskOnce(scheduleTask, true, true, false, elapsed);
      assert clock.Some? ==> service.CurrentClock() == Some(Clock(clock.value.utcNow + elapsed));
      assert clock.Some? ==>
        scheduleTaskEvent.Record() == Opened(scheduleTask.id, clock.value.utcNow, Some(currentCustomerId));
      FinishManualRun(scheduleTaskEvent, failure, storeFails);
    }

    /** After a manual run: record the end and report success, or record the error and report it. */
    method FinishManualRun(scheduleTaskEvent: ScheduleTaskEvent?, failure: Option<ExceptionInfo>, storeFails: bool)
      requires service.Valid()
      modifies this, service, service.repository, scheduleTaskEvent
      ensures service.Valid()
      ensures failure.None? ==> calls == old(calls) + [RecordEnd, NotifySuccess(RunNowDoneResource)]
      ensures failure.Some? ==>
        calls == old(calls) + (if scheduleTaskEvent != null then [RecordError(failure.value)] else []) + [NotifyError(failure.value)]
      ensures scheduleTaskEvent == null || service.CurrentClock().None? || storeFails ==>
        service.repository.rows == old(service.repository.rows)
      ensures scheduleTaskEvent != null && service.CurrentClock().Some? && !storeFails ==>
        service.repository.rows == old(service.repository.rows) +
          [(if failure.None? then Ended(old(scheduleTaskEvent.Record()), service.CurrentClock().value.utcNow)
            else Errored(old(scheduleTaskEvent.Record()), service.CurrentClock().value.utcNow, failure)).(id := old(service.repository.nextId))]
      ensures var message := if failure.Some? then ErrorFailedMessage else EndFailedMessage;
        service.errorLog == old(service.errorLog) +
          if scheduleTaskEvent == null then []
          else if service.CurrentClock().None? then [LogEntry(message, ArgumentNull("currentDateTimeHelper"))]
          else if storeFails then [LogEntry(message, InsertFailure)]
          else []
      ensures service.repository.nextId == old(service.repository.nextId) +
        (if scheduleTaskEvent != null && service.CurrentClock().Some? && !storeFails then 1 else 0)
    {
      if failure.None? {
        calls := calls + [RecordEnd];
        var _ := service.RecordEventEnd(scheduleTaskEvent, storeFails);
        calls := calls + [NotifySuccess(RunNowDoneResource)];
      } else {
        if scheduleTaskEvent != null {
          calls := calls + [RecordError(failure.value)];
          var _ := service.RecordEventError(scheduleTaskEvent, failure, storeFails);
        }
        calls := calls + [NotifyError(failure.value)];
      }
    }

    /**
     * Runs the task of type `taskType` for the scheduler; the runner's
     * exception is recorded and swallowed.
     */
    method RunTask(taskType: string, failure: Option<ExceptionInfo>, elapsed: nat, storeFails: bool) returns (result: ActionResult)
      requires service.Valid()
      modifies this, service, service.repository, service.currentDateTimeHelper
      ensures service.Valid()
      ensures result == NoContent
      ensures calls == old(calls) + RunTaskCalls(taskType, FindTaskByType(tasks, taskType), failure)
      ensures var task := FindTaskByType(tasks, taskType);
        service.repository.rows == old(service.repository.rows) +
          RunRows(task, None, old(service.CurrentClock()), elapsed, failure, storeFails, old(service.repository.nextId)) &&
        service.errorLog == old(service.errorLog) + RunLog(task.Some?, old(service.CurrentClock()), failure.Some?, storeFails)
      ensures var task := FindTaskByType(tasks, taskType);
        service.repository.nextId == old(service.repository.nextId) +
          |RunRows(task, None, old(service.CurrentClock()), elapsed, failure, storeFails, old(service.repository.nextId))|
      ensures var task := FindTaskByType(tasks, taskType);
        service.currentDateTimeHelper != null ==>
          service.currentDateTimeHelper.utcNow == old(service.currentDateTimeHelper.utcNow) + (if task.Some? then elapsed else 0)
    {
      calls := calls + [GetTaskByType(taskType)];
      var scheduleTask := FindTaskByType(tasks, taskType);
      if scheduleTask.None? {
        return NoContent;
      }
      RunScheduled(scheduleTask.value, failure, elapsed, storeFails);
      return NoContent;
    }

    /** The rest of `RunTask` once the task is found, with its exception handler. */
    method RunScheduled(scheduleTask: ScheduleTask, failure: Option<ExceptionInfo>, elapsed: nat, storeFails: bool)
      requires service.Valid()
      modifies this, service, service.repository, service.currentDateTimeHelper
      ensures service.Valid()
      ensures calls == old(calls) + RunTaskCalls(scheduleTask.taskType, Some(scheduleTask), failure)[1..]
      ensures service.repository.rows == old(service.repository.rows) +
        RunRows(Some(scheduleTask), None, old(service.CurrentClock()), elapsed, failure, storeFails, old(service.repository.nextId))
      ensures service.errorLog == old(service.errorLog) + RunLog(true, old(service.CurrentClock()), failure.Some?, storeFails)
      ensures service.repository.nextId == old(service.repository.nextId) +
        |RunRows(Some(scheduleTask), None, old(service.CurrentClock()), elapsed, failure, storeFails, old(service.repository.nextId))|
      ensures service.currentDateTimeHelper != null ==>
        service.currentDateTimeHelper.utcNow == old(service.currentDateTimeHelper.utcNow) + elapsed
    {
      ghost var clock := service.CurrentClock();
      calls := calls + [RecordStart(scheduleTask.id, None)];
      var scheduleTaskEvent := service.RecordEventStart(Some(scheduleTask), None);
      assert clock.None? <==> scheduleTaskEvent == null;
      RunTaskOnce(scheduleTask, true, true, true, elapsed);
      assert clock.Some? ==> service.CurrentClock() == Some(Clock(clock.value.utcNow + elapsed));
      assert clock.Some? ==> scheduleTaskEvent.Record() == Opened(scheduleTask.id, clock.value.utcNow, None);
      FinishScheduledRun(scheduleTaskEvent, failure, storeFails);
    }

    /** After a scheduled run: record the end, or record the runner's exception. */
    method FinishScheduledRun(scheduleTaskEvent: ScheduleTaskEvent?, failure: Option<ExceptionInfo>, storeFails: bool)
      requires service.Valid()
      modifies this, service, service.repository, scheduleTaskEvent
      ensures service.Valid()
      ensures calls == old(calls) + if failure.None? then [RecordEnd] else [RecordError(failure.value)]
      ensures scheduleTaskEvent == null || service.CurrentClock().None? || storeFails ==>
        service.repository.rows == old(service.repository.rows)
      ensures scheduleTaskEvent != null && service.CurrentClock().Some? && !storeFails ==>
        service.repository.rows == old(service.repository.rows) +
          [(if failure.None? then Ended(old(scheduleTaskEvent.Record()), service.CurrentClock().value.utcNow)
            else Errored(old(scheduleTaskEvent.Record()), service.CurrentClock().value.utcNow, failure)).(id := old(service.repository.nextId))]
      ensures var message := if failure.Some? then ErrorFailedMessage else EndFailedMessage;
        service.errorLog == old(service.errorLog) +
          if scheduleTaskEvent == null then []
          else if service.CurrentClock().None? then [LogEntry(message, ArgumentNull("currentDateTimeHelper"))]
          else if storeFails then [LogEntry(message, InsertFailure)]
          else []
      ensures service.repository.nextId == old(service.repository.nextId) +
        (if scheduleTaskEvent != null && service.CurrentClock().Some? && !storeFails then 1 else 0)
    {
      if failure.None? {
        calls := calls + [RecordEnd];
        var _ := service.RecordEventEnd(scheduleTaskEvent, storeFails);
      } else {
        calls := calls + [RecordError(failure.value)];
        var _ := service.RecordEventError(scheduleTaskEvent, failure, storeFails);
      }
    }
  }
}
