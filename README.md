# Schedule task log — a verified Dafny model

This project models the core of the nopCommerce "Schedule Task Log" plugin.
The plugin records every run of a background task as an event. An event has
its start and end instants, its duration in milliseconds, whether it failed
and with what exception, and whether an administrator started it by hand.
The plugin lists these events with filters and paging. It compares each
run's duration with the task's 14-day average and prunes old events.

The model follows the plugin's own structure, one module per source file.

- `Domain` (`schedule_task_event.dfy`) models the event entity. It is a class
  whose `Start`, `SetTriggeredManually`, `End` and `Error` update its fields
  in place. Each method is proved against a function on the event's record
  (`Started`, `MarkedManual`, `Ended`, `Errored`). `Truncate` and the
  duration rounding are functions.
- `Data` (`event_repository.dfy`) models the event table the service writes
  to. It has an identity counter and insert, delete-where and truncate.
- `Services` (`schedule_task_event_service.dfy`) models the state-changing
  half of the log service as a class. It records start, end and error on a
  best-effort basis: faults go to an error log and the result is null. It
  also clears and prunes the table.
- `LogQueries` (`log_queries.dfy`) models the read side of the same service
  as functions over the stored rows. This covers:
  - the five optional filter clauses;
  - the display order;
  - `ToPagedList`;
  - the rolling averages and the deviation percentage;
  - the list and detail views;
  - the three drop-down option lists.
- `Filters` (`log_schedule_task_action_filter.dfy`) models the action filter.
  It redirects the host's "run task" and "run now" actions to the plugin's
  controller. A decision function specifies it, and the filter method sets
  the context's result.
- `Controllers` (`task_runner_controller.dfy`) models `RunNow` and `RunTask`
  as methods of a controller class that drives the real service model. The
  host collaborators are abstract:
  - the permission answer;
  - the task definitions;
  - the current customer;
  - the task runner's outcome and how long it runs.

  Each method's contract gives the exact trace of collaborator calls, the
  rows added to the table and the entries added to the error log.
- `Validators` (`configuration_validator.dfy`) models the configuration
  rule `LogExpiryDays > 0`.
- `Wrappers`, `Linq` and `Text` are support modules:
  - `Wrappers` holds `Option`, `Result`, `Outcome` and the `Fault` kinds;
  - `Linq` models the LINQ operators as sequence functions;
  - `Text` covers case-insensitive comparison, ordinal order and
    `int.ToString()` with its parse-back.

Conventions:
- Time is a `DateTime` tick count (100 ns), with `DateTime.MinValue` as 0.
- An exception is a `Fault` value, or an `ExceptionInfo` for the task
  runner's exceptions.
- A null reference is `None`, or `null` for class references.
- Averages and deviations are `real` numbers.

The service file shows synchronous methods. The controller calls their
`...Async` counterparts, which are modelled by the synchronous ones.

## Model

| member | source | states |
|---|---|---|
| Domain.Truncate | src/Domain/ScheduleTaskEvent.cs:137-145 | a null text becomes empty, a text of at most 200 characters is kept, a longer one is cut to exactly its first 200; the result is always a prefix of the input |
| Domain.RoundToMilliseconds | src/Domain/ScheduleTaskEvent.cs:108 | the tick difference converted to milliseconds is within half a millisecond of the exact value, ties go to the even count, whole milliseconds are exact |
| Domain.Started | src/Domain/ScheduleTaskEvent.cs:77-81 | the event Start creates carries only the task id and the start instant: not yet numbered, no end, not failed, not manual, no exception |
| Domain.MarkedManual | src/Domain/ScheduleTaskEvent.cs:88-93 | the event becomes manual and triggered by the customer, and nothing else changes |
| Domain.Ended | src/Domain/ScheduleTaskEvent.cs:100-110 | End stamps the end instant and the rounded duration since the start; start, error flag and all other fields are unchanged |
| Domain.Errored | src/Domain/ScheduleTaskEvent.cs:119-135 | Error always sets the error flag and then ends the event; with an exception it stores the truncated message (at most 200 characters) and the full text, without one both stay as they were |
| Domain.ErrorIsEndWithErrorFields | src/Domain/ScheduleTaskEvent.cs:126-134 | Error is exactly End plus the error flag and the two exception fields |
| Domain.LongMessageKeepsLeadingCharacters | src/Domain/ScheduleTaskEvent.cs:126-130 | a message longer than 200 characters is stored as its first 200 |
| Domain.ThreeSecondRun | src/Domain/ScheduleTaskEvent.cs:107-108 | a run from 09:30:00 to 09:30:03 lasts 3000 ms |
| Domain.DurationNonNegative | src/Domain/ScheduleTaskEvent.cs:107-108 | when the end is not before the start the duration is not negative |
| Domain.ScheduleTaskEvent.constructor | src/Domain/ScheduleTaskEvent.cs:77-81 | a new event holds only the task id and the start instant |
| Domain.ScheduleTaskEvent.Start | src/Domain/ScheduleTaskEvent.cs:64-81 | a null clock fails with ArgumentNull(currentDateTimeHelper) first, then a null task with ArgumentNull(scheduleTask); otherwise a fresh event started now for that task |
| Domain.ScheduleTaskEvent.SetTriggeredManually | src/Domain/ScheduleTaskEvent.cs:88-93 | updates the event in place as MarkedManual and returns the same object |
| Domain.ScheduleTaskEvent.End | src/Domain/ScheduleTaskEvent.cs:100-110 | a null clock fails and leaves the event unchanged; otherwise the event becomes Ended at the clock's instant and the same object is returned |
| Domain.ScheduleTaskEvent.Error | src/Domain/ScheduleTaskEvent.cs:119-135 | a null clock fails and leaves the event unchanged; otherwise the event becomes Errored with the exception |
| Data.FindById | src/Services/ScheduleTaskEventService.cs:187 | returns a stored row with the id, and returns nothing exactly when no row has it |
| Data.FindByIdIsTheRow | src/Services/ScheduleTaskEventService.cs:187 | in a table with unique ids, the lookup of a stored row's id returns that very row |
| Data.FilteredIdsStayUnique | src/Services/ScheduleTaskEventService.cs:244 | deleting rows by a predicate keeps the ids of the rest unique |
| Data.EventRepository.Insert | src/Services/ScheduleTaskEventService.cs:103 | a failing insert changes nothing; otherwise the event gets the next identity, which no stored row has, its record is appended and the ids stay unique |
| Data.EventRepository.DeleteWhere | src/Services/ScheduleTaskEventService.cs:244 | the rows left are exactly the rows not matching the predicate, in their order, with ids still unique |
| Data.EventRepository.Truncate | src/Services/ScheduleTaskEventService.cs:202 | the table is empty afterwards |
| Services.Opened | src/Services/ScheduleTaskEventService.cs:74-90 | the started event is manual, with that customer, exactly when a customer id is given |
| Services.ScheduleTaskEventService.constructor | src/Services/ScheduleTaskEventService.cs:54-71 | holds the injected clock helper, settings and table, with an empty error log |
| Services.ScheduleTaskEventService.RecordEventStart | src/Services/ScheduleTaskEventService.cs:74-90 | a failing start (null clock, then null task) logs one entry with that fault and yields null; otherwise a fresh event equal to Opened, with nothing logged |
| Services.ScheduleTaskEventService.RecordEventEnd | src/Services/ScheduleTaskEventService.cs:93-111 | a null event changes nothing; a null clock logs once and leaves the event and table unchanged; a failed insert logs once, yields null and leaves the event ended; otherwise the ended event is inserted exactly once and returned |
| Services.ScheduleTaskEventService.RecordEventError | src/Services/ScheduleTaskEventService.cs:114-132 | the same four cases as RecordEventEnd, with the event Errored by the exception |
| Services.ScheduleTaskEventService.ClearLog | src/Services/ScheduleTaskEventService.cs:200-203 | the table is emptied and remains valid |
| Services.ScheduleTaskEventService.PruneEvents | src/Services/ScheduleTaskEventService.cs:242-245 | without a clock helper it fails with a null reference and deletes nothing; otherwise the table becomes Pruned at now minus LogExpiryDays days |
| Services.PruneCutoff | src/Services/ScheduleTaskEventService.cs:244 | the cutoff lies exactly LogExpiryDays whole days before now, so a positive period puts it in the past |
| Services.Pruned | src/Services/ScheduleTaskEventService.cs:244 | pruning never adds rows and every row left started at or after the cutoff |
| Services.PruneDeletesExactlyTheExpired | src/Services/ScheduleTaskEventService.cs:242-245 | an event survives pruning exactly when it started at or after the cutoff |
| Services.FourteenDayPruneBoundary | src/Services/ScheduleTaskEventService.cs:244 | with a 14-day expiry, events started 16 and 15 days ago are deleted; the one exactly 14 days ago and a newer one stay |
| Services.PruneIsIdempotent | src/Services/ScheduleTaskEventService.cs:244 | pruning again with the same cutoff deletes nothing more |
| Services.LongerRetentionKeepsMore | src/Services/ScheduleTaskEventService.cs:244 | a longer retention period keeps every event a shorter one keeps |
| LogQueries.ByTask | src/Services/ScheduleTaskEventService.cs:149-152 | keeps the rows of the task when the id is positive, else all rows |
| LogQueries.ByState | src/Services/ScheduleTaskEventService.cs:153-156 | state 1 keeps successes, state 2 keeps errors, any other value keeps all rows |
| LogQueries.ByTrigger | src/Services/ScheduleTaskEventService.cs:157-160 | trigger 1 keeps scheduled runs, trigger 2 keeps manual runs, any other value keeps all rows |
| LogQueries.ByFromDate | src/Services/ScheduleTaskEventService.cs:161-164 | keeps the rows started at or after the from date, when one is given |
| LogQueries.ByToDate | src/Services/ScheduleTaskEventService.cs:144-145 | keeps the rows started before the day after the to date, when one is given |
| LogQueries.ApplyFilters | src/Services/ScheduleTaskEventService.cs:147-168 | the five optional clauses applied one `Where` at a time, in the order the query chains them; ApplyFiltersSelectsMatches states what it selects |
| LogQueries.ApplyFiltersSelectsMatches | src/Services/ScheduleTaskEventService.cs:147-168 | the chain of optional filters keeps exactly the rows matching every clause of the search, in order |
| LogQueries.OutOfRangeIdsAreIgnored | src/Services/ScheduleTaskEventService.cs:149-160 | a non-positive task id, or a state or trigger outside 1 and 2, constrains nothing |
| LogQueries.DateWindowIncludesWholeToDay | src/Services/ScheduleTaskEventService.cs:144-168 | a run matches the date window exactly when from <= start < to + 1 day, so the whole "to" day is included |
| LogQueries.ShowsBefore | src/Services/ScheduleTaskEventService.cs:169 | the later start shows first; on equal starts the higher id shows first |
| LogQueries.ShowsBeforeIsTotalPreorder | src/Services/ScheduleTaskEventService.cs:169 | the display order is total and transitive, and two events tie only when start and id are equal |
| LogQueries.OrderForDisplay | src/Services/ScheduleTaskEventService.cs:169 | the result is a permutation of the rows, ordered by start descending, then id descending |
| LogQueries.ToPagedList | src/Services/ScheduleTaskEventService.cs:319-339 | the page size is raised to at least 1; item k of the page is source item index*size+k; the page is empty beyond the end; the total is the whole source count; only-the-count gives no items |
| LogQueries.PageLocatesEveryItem | src/Services/ScheduleTaskEventService.cs:335 | source item i is item i mod size of page i div size |
| LogQueries.TenItemsInPagesOfThree | src/Services/ScheduleTaskEventService.cs:327-338 | ten items in pages of three give 3, 3, 3 and 1 items, then empty pages, always with a total of 10 |
| LogQueries.AverageTimes | src/Services/ScheduleTaskEventService.cs:276-290 | the mean duration per task of the events that ended in the last 14 days, optionally of one task; RecentEventsMembers, AveragedTasks, AverageWithinRange and OldEventsDoNotCount state its properties |
| LogQueries.RecentEventsMembers | src/Services/ScheduleTaskEventService.cs:278-285 | the averaged events are exactly the rows that ended within the last 14 days, and are of the task asked for |
| LogQueries.AveragedTasks | src/Services/ScheduleTaskEventService.cs:276-290 | averages exist for exactly the tasks with a counted run |
| LogQueries.MeanBounds | src/Services/ScheduleTaskEventService.cs:289 | a mean lies between any bounds of its values |
| LogQueries.AverageWithinRange | src/Services/ScheduleTaskEventService.cs:276-290 | a task's average lies between the shortest and longest of its counted durations |
| LogQueries.OldEventsDoNotCount | src/Services/ScheduleTaskEventService.cs:280 | adding a row that ended outside the window changes no average |
| LogQueries.SingleTaskAverageAgrees | src/Services/ScheduleTaskEventService.cs:282-285 | restricting the averages to one task gives that task the same average |
| LogQueries.TimeAgainstAverage | src/Services/ScheduleTaskEventService.cs:292-307 | a deviation exists exactly when the task has a non-zero average, and then the average moved by that percentage equals the duration |
| LogQueries.DeviationSign | src/Services/ScheduleTaskEventService.cs:306 | against a positive average, the deviation is positive for slower runs and zero for equal ones |
| LogQueries.DeviationDependsOnlyOnOwnAverage | src/Services/ScheduleTaskEventService.cs:292-299 | only the task's own average entry affects a run's deviation |
| LogQueries.HundredAndThreeHundred | src/Services/ScheduleTaskEventService.cs:276-307 | recent runs of 100 ms and 300 ms of one task deviate by -50 % and +50 % |
| Linq.FirstWhere | src/Services/ScheduleTaskEventService.cs:252 | the first element satisfying the predicate: every earlier element fails it, and nothing is returned exactly when no element satisfies it |
| LogQueries.FindTask | src/Services/ScheduleTaskEventService.cs:252 | returns a task with that id, and returns nothing exactly when no task has it |
| LogQueries.TaskName | src/Services/ScheduleTaskEventService.cs:252 | the name of a task with the event's task id, absent exactly when no task has that id |
| LogQueries.TriggeredByEmail | src/Services/ScheduleTaskEventService.cs:254-258 | the e-mail of the triggering customer, absent for scheduled runs and unknown customers |
| LogQueries.ToModel | src/Services/ScheduleTaskEventService.cs:247-260 | the view of one event: its stored fields, the task name, the deviation from its task's average and the customer e-mail; DetailAgreesWithList and SingleTaskViewAgrees state its properties |
| LogQueries.LogItems | src/Services/ScheduleTaskEventService.cs:147-171 | the page of the filtered events in display order; ListedEventsMatch, ListedEventsInDisplayOrder and ListCountsAllMatches state its properties |
| LogQueries.PrepareLogListModel | src/Services/ScheduleTaskEventService.cs:135-182 | a null search fails with ArgumentNull(searchModel); otherwise row k of the grid is the view of item k of the filtered, ordered page |
| LogQueries.PageDrawsFromSource | src/Services/ScheduleTaskEventService.cs:335 | a page holds only elements of its source |
| LogQueries.PageKeepsDisplayOrder | src/Services/ScheduleTaskEventService.cs:335 | a page of an ordered source is ordered |
| LogQueries.ListedEventsMatch | src/Services/ScheduleTaskEventService.cs:147-171 | every listed event is a stored row matching the search |
| LogQueries.ListedEventsInDisplayOrder | src/Services/ScheduleTaskEventService.cs:169-171 | the listed events are in display order |
| LogQueries.ListCountsAllMatches | src/Services/ScheduleTaskEventService.cs:176-179 | both grid totals are the number of all matching rows, not the page size |
| LogQueries.TaskListFor | src/Services/ScheduleTaskEventService.cs:262-272 | the one-task list resolves the task's name as the full list does |
| LogQueries.GetScheduleTaskEventById | src/Services/ScheduleTaskEventService.cs:185-197 | returns nothing exactly when no row has the id, otherwise the view of that row |
| LogQueries.SingleTaskViewAgrees | src/Services/ScheduleTaskEventService.cs:193-196 | the one-task lists give an event the same view as the full ones |
| LogQueries.DetailAgreesWithList | src/Services/ScheduleTaskEventService.cs:185-197 | the detail view of a stored row equals its view in the list |
| LogQueries.DetailShowsTheStoredRow | src/Services/ScheduleTaskEventService.cs:185-197 | in a table with unique ids, as the repository keeps it, the detail of a stored row's id is that row's list view |
| LogQueries.TaskBeforeIsTotalPreorder | src/Services/ScheduleTaskEventService.cs:210-211 | ordering tasks by name, then id, is total and transitive |
| LogQueries.TasksInListOrder | src/Services/ScheduleTaskEventService.cs:210-211 | a permutation of the tasks, ordered by name, then id |
| LogQueries.GetAvailableTasks | src/Services/ScheduleTaskEventService.cs:206-215 | one entry per task, with names in ordinal order |
| LogQueries.AvailableTasksAreTheTasks | src/Services/ScheduleTaskEventService.cs:206-215 | every task has its entry, and every entry names a task and parses back to its id |
| LogQueries.GetAvailableStates | src/Services/ScheduleTaskEventService.cs:218-227 | two options, success then error, whose values parse back to the success and error state ids |
| LogQueries.GetAvailableTriggerTypes | src/Services/ScheduleTaskEventService.cs:230-239 | two options, by scheduler then by user, whose values parse back to the scheduled and manual trigger ids |
| LogQueries.StateOptionSelectsOutcome | src/Services/ScheduleTaskEventService.cs:218-227 | the value of the first state option selects successes and the second selects errors |
| LogQueries.TriggerOptionSelectsTrigger | src/Services/ScheduleTaskEventService.cs:230-239 | the value of the first trigger option selects scheduled runs and the second selects manual runs |
| Text.IntTextRoundTrip | src/Services/ScheduleTaskEventService.cs:212 | an id rendered as an option value parses back to the id |
| Text.OrdinalLeIsTotalOrder | src/Services/ScheduleTaskEventService.cs:210 | the name order is total, antisymmetric and transitive |
| Text.EqualsIgnoreCaseIsEquivalence | src/Filters/LogScheduleTaskActionFilter.cs:43 | comparing action names ignoring case is an equivalence |
| Filters.Decide | src/Filters/LogScheduleTaskActionFilter.cs:33-68 | with logging disabled or for another controller no result is set; the only fault is KeyNotFound for the argument of a matched run action that lacks it |
| Filters.RedirectsExactlyTheRunActions | src/Filters/LogScheduleTaskActionFilter.cs:40-67 | a result is set exactly for root + "runtask" and admin + "runnow" in any letter case, when logging is on and the argument is there |
| Filters.RedirectForwardsTheArgument | src/Filters/LogScheduleTaskActionFilter.cs:45-65 | a redirect has exactly the keys controller, action, area and the argument: TaskRunner/RunTask with the incoming task type and area "", or TaskRunner/RunNow with the incoming id and area "Admin" |
| Filters.CrossedPairsPassThrough | src/Filters/LogScheduleTaskActionFilter.cs:40-66 | root + RunNow and admin + RunTask are not intercepted |
| Filters.ActionNamesIgnoreCase | src/Filters/LogScheduleTaskActionFilter.cs:43-57 | "RunTask", "RUNTASK", "RunNow" and "runNOW" are all intercepted |
| Filters.LogScheduleTaskActionFilter.constructor | src/Filters/LogScheduleTaskActionFilter.cs:24-27 | holds the settings |
| Filters.LogScheduleTaskActionFilter.OnActionExecuting | src/Filters/LogScheduleTaskActionFilter.cs:33-68 | sets the context's result exactly as Decide says, leaves it unchanged otherwise, and fails with KeyNotFound for a missing argument |
| Filters.LogScheduleTaskActionFilter.OnActionExecuted | src/Filters/LogScheduleTaskActionFilter.cs:71-73 | changes nothing |
| Controllers.FindTaskByType | src/Areas/Admin/Controllers/TaskRunnerController.cs:121 | returns a task of that type, and returns nothing exactly when no task has it |
| Controllers.RecordedRunFields | src/Areas/Admin/Controllers/TaskRunnerController.cs:91-97 | the stored row of a run has the task, the start, an end `elapsed` later, the rounded duration, the manual flag and customer, and the error fields of the outcome |
| Controllers.RunNowWithoutPermissionDoesNothing | src/Areas/Admin/Controllers/TaskRunnerController.cs:80-83 | without permission only the authorization call happens |
| Controllers.ManualRunExecutesOnce | src/Areas/Admin/Controllers/TaskRunnerController.cs:91-106 | once the task is found it is executed once and one notification is raised |
| Controllers.RunNowExecutesAtMostOnce | src/Areas/Admin/Controllers/TaskRunnerController.cs:78-112 | RunNow executes at most once, exactly when permitted and found, and notifies once when permitted |
| Controllers.RunNowUnknownIdRecordsNothing | src/Areas/Admin/Controllers/TaskRunnerController.cs:85-106 | an unknown id records nothing, executes nothing and raises one error notification |
| Controllers.RunNowOrder | src/Areas/Admin/Controllers/TaskRunnerController.cs:86-106 | authorize, look up, record start, execute; then record end and report success, or record the error (only with an event) and report it |
| Controllers.RunTaskUnknownTypeRecordsNothing | src/Areas/Admin/Controllers/TaskRunnerController.cs:121-125 | an unknown type only looks the type up |
| Controllers.RunTaskOrder | src/Areas/Admin/Controllers/TaskRunnerController.cs:121-138 | look up, record start without a customer, execute, then record end on success or error on an exception |
| Controllers.SuccessfulManualRunIsLogged | src/Areas/Admin/Controllers/TaskRunnerController.cs:91-97 | a successful manual run stores one manual, error-free row by the customer, with a non-negative duration |
| Controllers.FailedScheduledRunIsLogged | src/Areas/Admin/Controllers/TaskRunnerController.cs:127-138 | a failed scheduled run stores one non-manual error row with the exception's message and text |
| Controllers.TaskRunnerController.constructor | src/Areas/Admin/Controllers/TaskRunnerController.cs:46-62 | holds its collaborators, with an empty trace |
| Controllers.TaskRunnerController.RunTaskOnce | src/Areas/Admin/Controllers/TaskRunnerController.cs:93 | records the execution with its flags; the clock moves on by the run's duration |
| Controllers.TaskRunnerController.RunNow | src/Areas/Admin/Controllers/TaskRunnerController.cs:78-112 | returns access denied without permission, else the redirect to the admin task list; the calls, new rows and error-log entries are exactly RunNowCalls, RunRows and RunLog; the identity counter grows by the rows added and the clock moves on by the run's duration only when a task ran |
| Controllers.TaskRunnerController.RunManually | src/Areas/Admin/Controllers/TaskRunnerController.cs:91-106 | the protected block after the lookup, with its handler: the calls, rows, identity counter, clock and log entries of a found task |
| Controllers.TaskRunnerController.FinishManualRun | src/Areas/Admin/Controllers/TaskRunnerController.cs:95-106 | records the end and reports success, or records the error only for a non-null event and reports it; the rows and log entries follow the service |
| Controllers.TaskRunnerController.RunTask | src/Areas/Admin/Controllers/TaskRunnerController.cs:119-141 | always returns no content; the calls, new rows and error-log entries are exactly RunTaskCalls, RunRows and RunLog; the identity counter grows by the rows added and the clock moves on only when a task ran |
| Controllers.TaskRunnerController.RunScheduled | src/Areas/Admin/Controllers/TaskRunnerController.cs:127-138 | the protected block after the lookup, with its handler: the calls, rows, identity counter, clock and log entries of a found task run by the scheduler, without a customer |
| Controllers.TaskRunnerController.FinishScheduledRun | src/Areas/Admin/Controllers/TaskRunnerController.cs:133-138 | records the end, or the runner's exception even when the event is null; the rows and log entries follow the service |
| Validators.Validate | src/Areas/Admin/Validators/ConfigurationValidator.cs:21-23 | no failure exactly when LogExpiryDays > 0; otherwise one failure on LogExpiryDays with the must-be-positive message |
| Validators.DisableLogIsUnconstrained | src/Areas/Admin/Validators/ConfigurationValidator.cs:21-23 | DisableLog never changes the outcome |
| Validators.RetentionExamples | src/Areas/Admin/Validators/ConfigurationValidator.cs:22 | 1, 10 and 100 pass; 0, -1 and -100 fail |
| Validators.ValidRetentionKeepsTheLastDay | src/Areas/Admin/Validators/ConfigurationValidator.cs:22 | an accepted retention period puts the prune cutoff at least a day back, so no event of the last 24 hours is pruned |

## Left out

- Domain.Truncate: lengths count Dafny characters (Unicode scalar values), not UTF-16 code units. A message with characters outside the Basic Multilingual Plane is therefore cut later than `Substring` cuts it, and never inside a surrogate pair. Strings here are sequences of scalar values.
- Floating point:
  - `TotalMilliseconds` is computed exactly from ticks and rounded half to even. A `double` loses precision only beyond 2^53 ticks, which is not modelled.
  - Averages and deviations are exact reals, so IEEE rounding of `Average()` and of the percentage is not modelled.
- Time zone conversion (`ConvertToUtcTime` and `ConvertToUserTime`) is the identity, because it is a host service.
- `DateTime` range faults are not modelled, because ticks are unbounded integers. This covers `AddDays` beyond the calendar.
- Collaborators outside the plugin:
  - localized labels and resource lookups are opaque strings or keys;
  - the customer e-mail lookup is a map;
  - the permission answer is a boolean;
  - the task lookups search a list of task definitions.
- `Controllers.FindTaskByType`: the host's tie-breaking among several tasks of one type is not modelled. The model returns the first.
- The task runner is a parameter of each run: whether it throws, which exception, and how many ticks it takes. The task body is host code.
- The `ensureRunOncePerPeriod` flag of `RunTask`'s execution is the runner's default, taken as `true`.
- The exception text of the argument exception for an unknown id is fixed (`Controllers.TaskNotLoaded`). Its stack trace is not modelled.
- `ILogger` is the service's `errorLog` field. `ErrorNotification` and `SuccessNotification` are entries of the controller's call trace.
- A failing insert is a boolean parameter of the methods that insert. The store's own behaviour (transactions, concurrency) is left out.
- Async execution, dependency injection and antiforgery/IP/vendor attributes are left out, because they do not change the logic.
- `ToPagedList`'s `source == null` branch is left out, because the query passed in is never null.
- `int` overflow of `pageIndex * pageSize` is left out, because indices and sizes are unbounded integers.
- Case-insensitive comparison folds ASCII letters only. The name order compares character values (Unicode scalar values) one by one; it is neither culture-aware nor an order of UTF-16 code units.
- `GetAverageTimes` reads the clock. The query functions take the current instant as a parameter, so a missing clock helper there is not modelled.
- These files are not part of this model:
  - plugin install and uninstall;
  - the admin log controller and views;
  - migrations and mappings;
  - the prune scheduled task, which delegates to `PruneEvents`;
  - the older duplicate source tree.
