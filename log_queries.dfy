/**
 * The read side of the schedule task log service: the filtered, ordered and
 * paged event list, the per-task rolling average duration and each run's
 * deviation from it, the single-event detail view, and the option lists of
 * the search form. Everything here is a function of the stored rows, the
 * task definitions, the customers and the current instant.
 */
module LogQueries {
  import opened Wrappers
  import opened Domain
  import opened Linq
  import Text
  import Data

  const SuccessStateId: int := 1
  const ErrorStateId: int := 2
  const TriggerScheduleId: int := 1
  const TriggerUserId: int := 2

  /** The rolling window, in days, over which average durations are taken. */
  const AverageWindowDays: int := 14

  /**
   * The search form. Dates are already in UTC (the time zone conversion is
   * treated as the identity); `page` is the one-based page number.
   */
  datatype SearchModel = SearchModel(
    startedOnFrom: Option<Ticks>,
    startedOnTo: Option<Ticks>,
    scheduleTaskId: int,
    stateId: int,
    triggerTypeId: int,
    page: int,
    pageSize: int)

  /** A customer as the customer service returns it. */
  datatype Customer = Customer(id: int, email: Option<string>)

  /** One row of the list, or the detail view. */
  datatype ScheduleLogModel = ScheduleLogModel(
    id: int,
    taskName: Option<string>,
    eventStartDateUtc: Ticks,
    eventEndDateUtc: Option<Ticks>,
    isError: bool,
    exceptionMessage: Option<string>,
    exceptionDetails: Option<string>,
    totalMilliseconds: Option<int>,
    timeAgainstAverage: Option<real>,
    isStartedManually: bool,
    triggeredByCustomerEmail: Option<string>)

  /** The grid model: the rows of one page and the count of all matches. */
  datatype ScheduleLogListModel = ScheduleLogListModel(
    data: seq<ScheduleLogModel>,
    recordsTotal: int,
    recordsFiltered: int)

  /** An `IPagedList`: one page of items and the size of the whole source. */
  datatype PagedList<T> = PagedList(items: seq<T>, pageIndex: int, pageSize: int, totalCount: int)

  /** An entry of a drop-down list. */
  datatype SelectListItem = SelectListItem(text: string, value: string)

  // ---------------------------------------------------------------- filters

  /** The task clause: a positive task id asks for that task. */
  predicate OfTask(f: SearchModel, e: EventRecord)
  {
    f.scheduleTaskId > 0 ==> e.scheduleTaskId == f.scheduleTaskId
  }

  /** The state clause: state 1 asks for successes, state 2 for errors. */
  predicate InState(f: SearchModel, e: EventRecord)
  {
    0 < f.stateId <= ErrorStateId ==> e.isError == (f.stateId == ErrorStateId)
  }

  /** The trigger clause: trigger 1 asks for scheduled runs, trigger 2 for manual runs. */
  predicate WithTrigger(f: SearchModel, e: EventRecord)
  {
    0 < f.triggerTypeId <= TriggerUserId ==> e.isStartedManually == (f.triggerTypeId == TriggerUserId)
  }

  /** The "from" clause: the run started at or after the from date. */
  predicate NotBefore(f: SearchModel, e: EventRecord)
  {
    f.startedOnFrom.Some? ==> e.eventStartDateUtc >= f.startedOnFrom.value
  }

  /** The "to" clause: the run started before the end of the to date's day. */
  predicate NotAfter(f: SearchModel, e: EventRecord)
  {
    f.startedOnTo.Some? ==> e.eventStartDateUtc < f.startedOnTo.value + TicksPerDay
  }

  /** What the search form asks of one event; out-of-range ids ask nothing. */
  predicate Matches(f: SearchModel, e: EventRecord)
  {
    OfTask(f, e) && InState(f, e) && WithTrigger(f, e) && NotBefore(f, e) && NotAfter(f, e)
  }

  /** The task filter: applied only for a positive task id. */
  function ByTask(rows: seq<EventRecord>, f: SearchModel): (r: seq<EventRecord>)
    ensures r == Where(rows, (e: EventRecord) => OfTask(f, e))
  {
    if f.scheduleTaskId > 0 then
      WhereSamePredicate(rows, (e: EventRecord) => e.scheduleTaskId == f.scheduleTaskId, (e: EventRecord) => OfTask(f, e));
      Where(rows, (e: EventRecord) => e.scheduleTaskId == f.scheduleTaskId)
    else
      WhereKeepsAll(rows, (e: EventRecord) => OfTask(f, e));
      rows
  }

  /** The state filter: applied only for state 1 or 2. */
  function ByState(rows: seq<EventRecord>, f: SearchModel): (r: seq<EventRecord>)
    ensures r == Where(rows, (e: EventRecord) => InState(f, e))
  {
    if 0 < f.stateId <= ErrorStateId then
      WhereSamePredicate(rows, (e: EventRecord) => e.isError == (f.stateId == ErrorStateId), (e: EventRecord) => InState(f, e));
      Where(rows, (e: EventRecord) => e.isError == (f.stateId == ErrorStateId))
    else
      WhereKeepsAll(rows, (e: EventRecord) => InState(f, e));
      rows
  }

  /** The trigger filter: applied only for trigger type 1 or 2. */
  function ByTrigger(rows: seq<EventRecord>, f: SearchModel): (r: seq<EventRecord>)
    ensures r == Where(rows, (e: EventRecord) => WithTrigger(f, e))
  {
    if 0 < f.triggerTypeId <= TriggerUserId then
      WhereSamePredicate(rows, (e: EventRecord) => e.isStartedManually == (f.triggerTypeId == TriggerUserId), (e: EventRecord) => WithTrigger(f, e));
      Where(rows, (e: EventRecord) => e.isStartedManually == (f.triggerTypeId == TriggerUserId))
    else
      WhereKeepsAll(rows, (e: EventRecord) => WithTrigger(f, e));
      rows
  }

  /** The "from" filter: applied only when a from date is given. */
  function ByFromDate(rows: seq<EventRecord>, f: SearchModel): (r: seq<EventRecord>)
    ensures r == Where(rows, (e: EventRecord) => NotBefore(f, e))
  {
    match f.startedOnFrom
    case Some(from) =>
      WhereSamePredicate(rows, (e: EventRecord) => e.eventStartDateUtc >= from, (e: EventRecord) => NotBefore(f, e));
      Where(rows, (e: EventRecord) => e.eventStartDateUtc >= from)
    case None =>
      WhereKeepsAll(rows, (e: EventRecord) => NotBefore(f, e));
      rows
  }

  /** The "to" filter: applied only when a to date is given, up to the end of that day. */
  function ByToDate(rows: seq<EventRecord>, f: SearchModel): (r: seq<EventRecord>)
    ensures r == Where(rows, (e: EventRecord) => NotAfter(f, e))
  {
    match f.startedOnTo
    case Some(to) =>
      WhereSamePredicate(rows, (e: EventRecord) => e.eventStartDateUtc < to + TicksPerDay, (e: EventRecord) => NotAfter(f, e));
      Where(rows, (e: EventRecord) => e.eventStartDateUtc < to + TicksPerDay)
    case None =>
      WhereKeepsAll(rows, (e: EventRecord) => NotAfter(f, e));
      rows
  }

  /** The filter clauses as the list query chains them, one optional `Where` at a time. */
  function ApplyFilters(rows: seq<EventRecord>, f: SearchModel): seq<EventRecord>
  {
    ByToDate(ByFromDate(ByTrigger(ByState(ByTask(rows, f), f), f), f), f)
  }

  /** The chained clauses select exactly the events that match the search. */
  lemma ApplyFiltersSelectsMatches(rows: seq<EventRecord>, f: SearchModel)
    ensures ApplyFilters(rows, f) == Where(rows, (e: EventRecord) => Matches(f, e))
  {
    var c2 := (e: EventRecord) => OfTask(f, e) && InState(f, e);
    var c3 := (e: EventRecord) => OfTask(f, e) && InState(f, e) && WithTrigger(f, e);
    var c4 := (e: EventRecord) => OfTask(f, e) && InState(f, e) && WithTrigger(f, e) && NotBefore(f, e);
    WhereWhere(rows, (e: EventRecord) => OfTask(f, e), (e: EventRecord) => InState(f, e), c2);
    WhereWhere(rows, c2, (e: EventRecord) => WithTrigger(f, e), c3);
    WhereWhere(rows, c3, (e: EventRecord) => NotBefore(f, e), c4);
    WhereWhere(rows, c4, (e: EventRecord) => NotAfter(f, e), (e: EventRecord) => Matches(f, e));
  }

  /** A state, trigger type or task id outside the known values imposes no constraint. */
  lemma OutOfRangeIdsAreIgnored(f: SearchModel, e: EventRecord)
    ensures f.scheduleTaskId <= 0 ==> Matches(f, e) == Matches(f.(scheduleTaskId := 0), e)
    ensures !(f.stateId in {SuccessStateId, ErrorStateId}) ==> Matches(f, e) == Matches(f.(stateId := 0), e)
    ensures !(f.triggerTypeId in {TriggerScheduleId, TriggerUserId}) ==>
      Matches(f, e) == Matches(f.(triggerTypeId := 0), e)
  {
  }

  /** The "to" date includes its whole day: the window is [from, to + 1 day). */
  lemma DateWindowIncludesWholeToDay(f: SearchModel, e: EventRecord, from: Ticks, to: Ticks)
    requires f.startedOnFrom == Some(from) && f.startedOnTo == Some(to)
    requires f.scheduleTaskId == 0 && f.stateId == 0 && f.triggerTypeId == 0
    ensures Matches(f, e) <==> from <= e.eventStartDateUtc < to + TicksPerDay
    ensures to <= e.eventStartDateUtc < to + TicksPerDay && from <= to ==> Matches(f, e)
  {
  }

  // ---------------------------------------------------------------- ordering

  /** Display order: later start first, and on equal starts the higher id first. */
  predicate ShowsBefore(a: EventRecord, b: EventRecord): (r: bool)
    ensures a.eventStartDateUtc != b.eventStartDateUtc ==> (r <==> a.eventStartDateUtc > b.eventStartDateUtc)
    ensures a.eventStartDateUtc == b.eventStartDateUtc ==> (r <==> a.id >= b.id)
  {
    a.eventStartDateUtc > b.eventStartDateUtc
    || (a.eventStartDateUtc == b.eventStartDateUtc && a.id >= b.id)
  }

  lemma ShowsBeforeIsTotalPreorder()
    ensures TotalPreorder(ShowsBefore)
    ensures forall a, b :: ShowsBefore(a, b) && ShowsBefore(b, a) ==>
      a.eventStartDateUtc == b.eventStartDateUtc && a.id == b.id
  {
  }

  /** `OrderByDescending(EventStartDateUtc).ThenByDescending(Id)`. */
  function OrderForDisplay(rows: seq<EventRecord>): (r: seq<EventRecord>)
    ensures multiset(r) == multiset(rows)
    ensures forall i, j :: 0 <= i < j < |r| ==> ShowsBefore(r[i], r[j])
  {
    ShowsBeforeIsTotalPreorder();
    SortBy(rows, ShowsBefore)
  }

  // ---------------------------------------------------------------- paging

  /** Where page `pageIndex` starts: a non-positive index skips nothing. */
  function PageStart(pageIndex: int, pageSize: int): nat
    requires pageSize >= 1
  {
    if pageIndex <= 0 then 0 else pageIndex * pageSize
  }

  /** `ToPagedList`: the page size is at least 1; the page is `Skip(index * size).Take(size)`. */
  function ToPagedList<T>(source: seq<T>, pageIndex: int, pageSize: int, getOnlyTotalCount: bool): (r: PagedList<T>)
    ensures r.pageSize == if pageSize < 1 then 1 else pageSize
    ensures r.pageIndex == pageIndex && r.totalCount == |source|
    ensures getOnlyTotalCount ==> r.items == []
    ensures !getOnlyTotalCount ==>
      var start := PageStart(pageIndex, r.pageSize);
      |r.items| == if |source| <= start then 0
                   else if |source| - start < r.pageSize then |source| - start
                   else r.pageSize
    ensures !getOnlyTotalCount ==>
      forall k :: 0 <= k < |r.items| ==> r.items[k] == source[PageStart(pageIndex, r.pageSize) + k]
  {
    var size := if pageSize < 1 then 1 else pageSize;
    var items := if getOnlyTotalCount then [] else Take(Skip(source, pageIndex * size), size);
    PagedList(items, pageIndex, size, |source|)
  }

  /** Item `i` of the source is item `i % size` of page `i / size`. */
  lemma PageLocatesEveryItem<T>(source: seq<T>, pageSize: int, i: int)
    requires pageSize >= 1 && 0 <= i < |source|
    ensures var page := ToPagedList(source, i / pageSize, pageSize, false);
      i % pageSize < |page.items| && page.items[i % pageSize] == source[i]
  {
    var index, offset := i / pageSize, i % pageSize;
    assert index * pageSize + offset == i;
    assert index >= 0 && PageStart(index, pageSize) == index * pageSize;
    var page := ToPagedList(source, index, pageSize, false);
    assert offset < |page.items|;
  }

  /** Ten items in pages of three: 3, 3, 3 and 1 items, then empty pages, always a total of 10. */
  lemma TenItemsInPagesOfThree<T>(source: seq<T>, later: int)
    requires |source| == 10 && later >= 4
    ensures |ToPagedList(source, 0, 3, false).items| == 3
    ensures |ToPagedList(source, 1, 3, false).items| == 3
    ensures |ToPagedList(source, 2, 3, false).items| == 3
    ensures ToPagedList(source, 3, 3, false).items == [source[9]]
    ensures ToPagedList(source, later, 3, false).items == []
    ensures ToPagedList(source, later, 3, false).totalCount == 10
  {
    assert PageStart(later, 3) >= 12;
  }

  // ---------------------------------------------------------------- averages

  /** The event ended inside the rolling window that ends at `now`. */
  predicate EndedWithinWindow(e: EventRecord, now: Ticks)
  {
    e.eventEndDateUtc > now - AverageWindowDays * TicksPerDay
  }

  /** The events the averages are taken over, optionally for one task only. */
  function RecentEvents(rows: seq<EventRecord>, now: Ticks, taskId: Option<int>): seq<EventRecord>
  {
    var recent := Where(rows, (e: EventRecord) => EndedWithinWindow(e, now));
    if taskId.Some? then Where(recent, (e: EventRecord) => e.scheduleTaskId == taskId.value) else recent
  }

  /** The events of task `taskId`, in row order: one group of the `GroupBy`. */
  function Group(rows: seq<EventRecord>, taskId: int): seq<EventRecord>
  {
    Where(rows, (e: EventRecord) => e.scheduleTaskId == taskId)
  }

  function Durations(rows: seq<EventRecord>): seq<int>
  {
    Select(rows, (e: EventRecord) => e.totalMilliseconds)
  }

  function Sum(xs: seq<int>): int
  {
    if xs == [] then 0 else xs[0] + Sum(xs[1..])
  }

  function Mean(xs: seq<int>): real
    requires |xs| > 0
  {
    Sum(xs) as real / |xs| as real
  }

  /** The task ids that occur among `rows`: the keys of the `GroupBy`. */
  function TaskIds(rows: seq<EventRecord>): set<int>
  {
    set e | e in rows :: e.scheduleTaskId
  }

  /** Every key of the `GroupBy` has a non-empty group. */
  lemma GroupNonEmpty(rows: seq<EventRecord>, t: int)
    requires t in TaskIds(rows)
    ensures |Group(rows, t)| > 0
  {
    var e :| e in rows && e.scheduleTaskId == t;
    WhereMembers(rows, (e: EventRecord) => e.scheduleTaskId == t);
    assert e in Group(rows, t);
  }

  /** `GetAverageTimes`: the mean duration per task over the events ended in the last 14 days. */
  function AverageTimes(rows: seq<EventRecord>, now: Ticks, taskId: Option<int>): map<int, real>
  {
    var recent := RecentEvents(rows, now, taskId);
    map t | t in TaskIds(recent) :: (GroupNonEmpty(recent, t); Mean(Durations(Group(recent, t))))
  }

  /** A run counts towards the averages when it ended in the window (and is of the task asked for). */
  predicate Averaged(e: EventRecord, now: Ticks, taskId: Option<int>)
  {
    EndedWithinWindow(e, now) && (taskId.Some? ==> e.scheduleTaskId == taskId.value)
  }

  lemma {:induction false} RecentEventsMembers(rows: seq<EventRecord>, now: Ticks, taskId: Option<int>)
    ensures forall e :: e in RecentEvents(rows, now, taskId) <==> e in rows && Averaged(e, now, taskId)
  {
    var recent := Where(rows, (e: EventRecord) => EndedWithinWindow(e, now));
    WhereMembers(rows, (e: EventRecord) => EndedWithinWindow(e, now));
    if taskId.Some? {
      WhereMembers(recent, (e: EventRecord) => e.scheduleTaskId == taskId.value);
    }
  }

  /** Averages exist for exactly the tasks with a run that counts. */
  lemma AveragedTasks(rows: seq<EventRecord>, now: Ticks, taskId: Option<int>)
    ensures AverageTimes(rows, now, taskId).Keys == set e | e in rows && Averaged(e, now, taskId) :: e.scheduleTaskId
  {
    RecentEventsMembers(rows, now, taskId);
  }

  lemma {:induction false} SumBounds(xs: seq<int>, lo: int, hi: int)
    requires forall k :: 0 <= k < |xs| ==> lo <= xs[k] <= hi
    ensures |xs| * lo <= Sum(xs) <= |xs| * hi
  {
    if xs != [] {
      SumBounds(xs[1..], lo, hi);
    }
  }

  /** A mean lies between any lower and upper bound of its values. */
  lemma MeanBounds(xs: seq<int>, lo: int, hi: int)
    requires |xs| > 0
    requires forall k :: 0 <= k < |xs| ==> lo <= xs[k] <= hi
    ensures lo as real <= Mean(xs) <= hi as real
  {
    SumBounds(xs, lo, hi);
    var n := |xs| as real;
    var m := Mean(xs);
    assert m * n == Sum(xs) as real;
    assert lo as real * n <= m * n <= hi as real * n;
  }

  /** A task's average lies between the shortest and the longest of its counted durations. */
  lemma AverageWithinRange(rows: seq<EventRecord>, now: Ticks, taskId: Option<int>, t: int, lo: int, hi: int)
    requires t in AverageTimes(rows, now, taskId)
    requires forall e :: e in rows && Averaged(e, now, taskId) && e.scheduleTaskId == t ==> lo <= e.totalMilliseconds <= hi
    ensures lo as real <= AverageTimes(rows, now, taskId)[t] <= hi as real
  {
    var recent := RecentEvents(rows, now, taskId);
    var group := Group(recent, t);
    var ds := Durations(group);
    RecentEventsMembers(rows, now, taskId);
    WhereMembers(recent, (e: EventRecord) => e.scheduleTaskId == t);
    forall k | 0 <= k < |ds| ensures lo <= ds[k] <= hi {
      assert group[k] in group;
    }
    GroupNonEmpty(recent, t);
    MeanBounds(ds, lo, hi);
  }

  /** A row that ended outside the window never moves an average. */
  lemma OldEventsDoNotCount(before: seq<EventRecord>, stale: EventRecord, after: seq<EventRecord>, now: Ticks, taskId: Option<int>)
    requires !EndedWithinWindow(stale, now)
    ensures AverageTimes(before + [stale] + after, now, taskId) == AverageTimes(before + after, now, taskId)
  {
    var window := (e: EventRecord) => EndedWithinWindow(e, now);
    WhereAppend(before + [stale], after, window);
    WhereAppend(before, [stale], window);
    WhereAppend(before, after, window);
    assert Where([stale], window) == [];
    assert Where(before + [stale], window) == Where(before, window);
    assert Where(before + [stale] + after, window) == Where(before + after, window);
    assert RecentEvents(before + [stale] + after, now, taskId) == RecentEvents(before + after, now, taskId);
  }

  /** Restricting the averages to one task leaves that task's average unchanged. */
  lemma SingleTaskAverageAgrees(rows: seq<EventRecord>, now: Ticks, t: int)
    ensures t in AverageTimes(rows, now, None) <==> t in AverageTimes(rows, now, Some(t))
    ensures t in AverageTimes(rows, now, None) ==>
      AverageTimes(rows, now, Some(t))[t] == AverageTimes(rows, now, None)[t]
  {
    var recent := RecentEvents(rows, now, None);
    var key := (e: EventRecord) => e.scheduleTaskId == t;
    var narrowed := RecentEvents(rows, now, Some(t));
    assert narrowed == Where(recent, key) by {
      WhereSamePredicate(recent, (e: EventRecord) => e.scheduleTaskId == Some(t).value, key);
    }
    WhereMembers(recent, key);
    assert t in TaskIds(recent) <==> t in TaskIds(narrowed);
    WhereWhere(recent, key, key, key);
    assert Group(narrowed, t) == Where(Where(recent, key), key);
    assert Group(recent, t) == Where(recent, key);
  }

  // ---------------------------------------------------------------- deviation

  /** `GetTimeAgainstAverage`: the signed percentage by which a run differs from its task's average. */
  function TimeAgainstAverage(scheduleTaskId: int, totalMilliseconds: int, averages: map<int, real>): (r: Option<real>)
    ensures r.Some? <==> scheduleTaskId in averages && averages[scheduleTaskId] != 0.0
    ensures r.Some? ==>
      averages[scheduleTaskId] + averages[scheduleTaskId] * r.value / 100.0 == totalMilliseconds as real
  {
    if scheduleTaskId !in averages then None
    else
      var average := averages[scheduleTaskId];
      if average == 0.0 then None
      else Some((totalMilliseconds as real - average) / average * 100.0)
  }

  /** Against a positive average, slower runs deviate upwards and faster runs downwards. */
  lemma DeviationSign(scheduleTaskId: int, totalMilliseconds: int, averages: map<int, real>)
    requires scheduleTaskId in averages && averages[scheduleTaskId] > 0.0
    ensures var r := TimeAgainstAverage(scheduleTaskId, totalMilliseconds, averages);
      && r.Some?
      && (r.value > 0.0 <==> totalMilliseconds as real > averages[scheduleTaskId])
      && (r.value == 0.0 <==> totalMilliseconds as real == averages[scheduleTaskId])
  {
    var avg := averages[scheduleTaskId];
    var r := TimeAgainstAverage(scheduleTaskId, totalMilliseconds, averages);
    assert avg * r.value / 100.0 == totalMilliseconds as real - avg;
  }

  /** The deviation of a run looks only at its own task's average. */
  lemma DeviationDependsOnlyOnOwnAverage(scheduleTaskId: int, totalMilliseconds: int, a: map<int, real>, b: map<int, real>)
    requires scheduleTaskId in a <==> scheduleTaskId in b
    requires scheduleTaskId in a ==> a[scheduleTaskId] == b[scheduleTaskId]
    ensures TimeAgainstAverage(scheduleTaskId, totalMilliseconds, a) == TimeAgainstAverage(scheduleTaskId, totalMilliseconds, b)
  {
  }

  /** Two recent runs of one task taking 100 ms and 300 ms deviate by -50 % and +50 %. */
  lemma HundredAndThreeHundred(now: Ticks, e1: EventRecord, e2: EventRecord)
    requires e1.scheduleTaskId == e2.scheduleTaskId
    requires EndedWithinWindow(e1, now) && EndedWithinWindow(e2, now)
    requires e1.totalMilliseconds == 100 && e2.totalMilliseconds == 300
    ensures TimeAgainstAverage(e1.scheduleTaskId, 100, AverageTimes([e1, e2], now, None)) == Some(-50.0)
    ensures TimeAgainstAverage(e2.scheduleTaskId, 300, AverageTimes([e1, e2], now, None)) == Some(50.0)
  {
    var t := e1.scheduleTaskId;
    var window := (e: EventRecord) => EndedWithinWindow(e, now);
    assert Where([e2], window) == [e2];
    assert Where([e1, e2], window) == [e1] + Where([e2], window);
    var recent := RecentEvents([e1, e2], now, None);
    assert recent == [e1, e2];
    var key := (e: EventRecord) => e.scheduleTaskId == t;
    assert Where([e2], key) == [e2];
    assert Group(recent, t) == [e1] + Where([e2], key);
    var ds := Durations(Group(recent, t));
    assert ds == [100, 300];
    assert Sum(ds) == 400 by {
      assert ds[1..] == [300];
      assert Sum([300]) == 300 + Sum([]);
    }
    assert t in TaskIds(recent);
    assert AverageTimes([e1, e2], now, None)[t] == 200.0;
  }

  // ---------------------------------------------------------------- list and detail

  /** The first task with the given id (`FirstOrDefault`). */
  function FindTask(tasks: seq<ScheduleTask>, id: int): (r: Option<ScheduleTask>)
    ensures r.Some? ==> r.value in tasks && r.value.id == id
    ensures r.None? <==> forall t :: t in tasks ==> t.id != id
  {
    FirstWhere(tasks, (t: ScheduleTask) => t.id == id)
  }

  /** The name of the task with the given id, absent when no task has it. */
  function TaskName(tasks: seq<ScheduleTask>, id: int): (r: Option<string>)
    ensures r.None? <==> forall t :: t in tasks ==> t.id != id
    ensures r.Some? ==> exists t :: t in tasks && t.id == id && t.name == r.value
  {
    match FindTask(tasks, id)
    case Some(t) => Some(t.name)
    case None => None
  }

  /** The e-mail of the customer who triggered the run, when there is one and it resolves. */
  function TriggeredByEmail(e: EventRecord, customers: map<int, Customer>): Option<string>
  {
    if e.triggeredByCustomerId.Some? && e.triggeredByCustomerId.value in customers
    then customers[e.triggeredByCustomerId.value].email
    else None
  }

  /** `ToModel`: the stored fields plus task name, deviation and customer e-mail. */
  function ToModel(e: EventRecord, tasks: seq<ScheduleTask>, averages: map<int, real>, customers: map<int, Customer>): ScheduleLogModel
  {
    ScheduleLogModel(
      e.id, TaskName(tasks, e.scheduleTaskId), e.eventStartDateUtc, Some(e.eventEndDateUtc),
      e.isError, e.exceptionMessage, e.exceptionDetails, Some(e.totalMilliseconds),
      TimeAgainstAverage(e.scheduleTaskId, e.totalMilliseconds, averages),
      e.isStartedManually, TriggeredByEmail(e, customers))
  }

  /** The page of events the list shows: filtered, ordered, then paged. */
  function LogItems(rows: seq<EventRecord>, f: SearchModel): PagedList<EventRecord>
  {
    ToPagedList(OrderForDisplay(ApplyFilters(rows, f)), f.page - 1, f.pageSize, false)
  }

  /** `PrepareLogListModel`: fails on a null search, otherwise one page of rows and the match count. */
  function PrepareLogListModel(
    search: Option<SearchModel>, rows: seq<EventRecord>, tasks: seq<ScheduleTask>,
    customers: map<int, Customer>, now: Ticks): (r: Result<ScheduleLogListModel>)
    ensures search.None? <==> r == Err(ArgumentNull("searchModel"))
    ensures r.Ok? ==> |r.value.data| == |LogItems(rows, search.value).items|
    ensures r.Ok? ==> forall k :: 0 <= k < |r.value.data| ==>
      r.value.data[k] == ToModel(LogItems(rows, search.value).items[k], tasks, AverageTimes(rows, now, None), customers)
  {
    if search.None? then Err(ArgumentNull("searchModel"))
    else
      var page := LogItems(rows, search.value);
      var averages := AverageTimes(rows, now, None);
      Ok(ScheduleLogListModel(
        Select(page.items, (e: EventRecord) => ToModel(e, tasks, averages, customers)),
        page.totalCount, page.totalCount))
  }

  /** A page holds only elements of its source. */
  lemma PageDrawsFromSource<T>(source: seq<T>, pageIndex: int, pageSize: int)
    ensures forall x :: x in ToPagedList(source, pageIndex, pageSize, false).items ==> x in source
  {
    var page := ToPagedList(source, pageIndex, pageSize, false);
    forall x | x in page.items ensures x in source {
      var k :| 0 <= k < |page.items| && page.items[k] == x;
      assert source[PageStart(pageIndex, page.pageSize) + k] == x;
    }
  }

  /** A page of a source in display order is itself in display order. */
  lemma PageKeepsDisplayOrder(source: seq<EventRecord>, pageIndex: int, pageSize: int)
    requires forall i, j :: 0 <= i < j < |source| ==> ShowsBefore(source[i], source[j])
    ensures var items := ToPagedList(source, pageIndex, pageSize, false).items;
      forall i, j :: 0 <= i < j < |items| ==> ShowsBefore(items[i], items[j])
  {
    var page := ToPagedList(source, pageIndex, pageSize, false);
    var start := PageStart(pageIndex, page.pageSize);
    forall i, j | 0 <= i < j < |page.items| ensures ShowsBefore(page.items[i], page.items[j]) {
      var x, y := page.items[i], page.items[j];
      assert x == source[start + i];
      assert y == source[start + j];
      assert ShowsBefore(source[start + i], source[start + j]);
    }
  }

  /** Every listed event is a stored event that matches the search. */
  lemma ListedEventsMatch(rows: seq<EventRecord>, search: SearchModel)
    ensures forall e :: e in LogItems(rows, search).items ==> e in rows && Matches(search, e)
  {
    var matched := ApplyFilters(rows, search);
    var ordered := OrderForDisplay(matched);
    ApplyFiltersSelectsMatches(rows, search);
    WhereMembers(rows, (e: EventRecord) => Matches(search, e));
    PageDrawsFromSource(ordered, search.page - 1, search.pageSize);
    forall e | e in ordered ensures e in matched {
      assert e in multiset(ordered);
    }
  }

  /** The listed events appear in display order. */
  lemma ListedEventsInDisplayOrder(rows: seq<EventRecord>, search: SearchModel)
    ensures var items := LogItems(rows, search).items;
      forall i, j :: 0 <= i < j < |items| ==> ShowsBefore(items[i], items[j])
  {
    PageKeepsDisplayOrder(OrderForDisplay(ApplyFilters(rows, search)), search.page - 1, search.pageSize);
  }

  /** Both totals the grid reports are the number of all matching events, not of the page. */
  lemma ListCountsAllMatches(
    search: SearchModel, rows: seq<EventRecord>, tasks: seq<ScheduleTask>,
    customers: map<int, Customer>, now: Ticks)
    ensures var r := PrepareLogListModel(Some(search), rows, tasks, customers, now).value;
      r.recordsTotal == r.recordsFiltered == |Where(rows, (e: EventRecord) => Matches(search, e))|
  {
    ApplyFiltersSelectsMatches(rows, search);
    var matched := ApplyFilters(rows, search);
    assert |OrderForDisplay(matched)| == |matched| by {
      assert |multiset(OrderForDisplay(matched))| == |multiset(matched)|;
    }
  }

  /** The one-element task list the detail view resolves the task name from. */
  function TaskListFor(tasks: seq<ScheduleTask>, taskId: int): (r: seq<ScheduleTask>)
    ensures TaskName(r, taskId) == TaskName(tasks, taskId)
  {
    match FindTask(tasks, taskId)
    case Some(t) => [t]
    case None => []
  }

  /** `GetScheduleTaskEventById`: the detail view of one stored event, absent when there is none. */
  function GetScheduleTaskEventById(
    id: int, rows: seq<EventRecord>, tasks: seq<ScheduleTask>,
    customers: map<int, Customer>, now: Ticks): (r: Option<ScheduleLogModel>)
    ensures r.None? <==> forall e :: e in rows ==> e.id != id
    ensures r.Some? ==> r.value.id == id
  {
    match Data.FindById(rows, id)
    case None => None
    case Some(e) =>
      Some(ToModel(e, TaskListFor(tasks, e.scheduleTaskId), AverageTimes(rows, now, Some(e.scheduleTaskId)), customers))
  }

  /** The one-task list and the one-task averages give the event the same view as the full ones. */
  lemma SingleTaskViewAgrees(e: EventRecord, rows: seq<EventRecord>, tasks: seq<ScheduleTask>, customers: map<int, Customer>, now: Ticks)
    ensures ToModel(e, TaskListFor(tasks, e.scheduleTaskId), AverageTimes(rows, now, Some(e.scheduleTaskId)), customers)
         == ToModel(e, tasks, AverageTimes(rows, now, None), customers)
  {
    var t := e.scheduleTaskId;
    SingleTaskAverageAgrees(rows, now, t);
    DeviationDependsOnlyOnOwnAverage(t, e.totalMilliseconds, AverageTimes(rows, now, Some(t)), AverageTimes(rows, now, None));
  }

  /** The detail view shows the same task name and deviation as the list does for that event. */
  lemma DetailAgreesWithList(id: int, rows: seq<EventRecord>, tasks: seq<ScheduleTask>, customers: map<int, Customer>, now: Ticks)
    requires Data.FindById(rows, id).Some?
    ensures GetScheduleTaskEventById(id, rows, tasks, customers, now)
         == Some(ToModel(Data.FindById(rows, id).value, tasks, AverageTimes(rows, now, None), customers))
  {
    SingleTaskViewAgrees(Data.FindById(rows, id).value, rows, tasks, customers, now);
  }

  /** In a table with unique ids (as the repository keeps it), the detail view is the list view of that row. */
  lemma DetailShowsTheStoredRow(e: EventRecord, rows: seq<EventRecord>, tasks: seq<ScheduleTask>, customers: map<int, Customer>, now: Ticks)
    requires Data.UniqueIds(rows)
    requires e in rows
    ensures GetScheduleTaskEventById(e.id, rows, tasks, customers, now)
         == Some(ToModel(e, tasks, AverageTimes(rows, now, None), customers))
  {
    Data.FindByIdIsTheRow(rows, e);
    DetailAgreesWithList(e.id, rows, tasks, customers, now);
  }

  // ---------------------------------------------------------------- option lists

  /** Task order of the drop-down: by name (ordinal), then by id. */
  predicate TaskBefore(a: ScheduleTask, b: ScheduleTask)
  {
    (Text.OrdinalLe(a.name, b.name) && a.name != b.name) || (a.name == b.name && a.id <= b.id)
  }

  lemma TaskBeforeIsTotalPreorder()
    ensures TotalPreorder(TaskBefore)
  {
    forall a: ScheduleTask, b: ScheduleTask ensures TaskBefore(a, b) || TaskBefore(b, a) {
      Text.OrdinalLeIsTotalOrder(a.name, b.name, b.name);
    }
    forall a: ScheduleTask, b: ScheduleTask, c: ScheduleTask | TaskBefore(a, b) && TaskBefore(b, c)
      ensures TaskBefore(a, c)
    {
      Text.OrdinalLeIsTotalOrder(a.name, b.name, c.name);
      Text.OrdinalLeIsTotalOrder(a.name, c.name, b.name);
      Text.OrdinalLeIsTotalOrder(b.name, c.name, a.name);
    }
  }

  /** The drop-down entry of a task: its name, valued by its id. */
  function TaskItem(t: ScheduleTask): SelectListItem
  {
    SelectListItem(t.name, Text.IntText(t.id))
  }

  /** The tasks in drop-down order. */
  function TasksInListOrder(tasks: seq<ScheduleTask>): (r: seq<ScheduleTask>)
    ensures multiset(r) == multiset(tasks)
    ensures forall i, j :: 0 <= i < j < |r| ==> TaskBefore(r[i], r[j])
  {
    TaskBeforeIsTotalPreorder();
    SortBy(tasks, TaskBefore)
  }

  /** `GetAvailableTasks`: every task once, ordered by name then id, valued by its id. */
  function GetAvailableTasks(tasks: seq<ScheduleTask>): (items: seq<SelectListItem>)
    ensures |items| == |tasks|
    ensures forall i, j :: 0 <= i < j < |items| ==> Text.OrdinalLe(items[i].text, items[j].text)
  {
    var ordered := TasksInListOrder(tasks);
    assert |ordered| == |tasks| by {
      assert |multiset(ordered)| == |multiset(tasks)|;
    }
    forall a: ScheduleTask, b: ScheduleTask | TaskBefore(a, b) ensures Text.OrdinalLe(a.name, b.name) {
      Text.OrdinalLeIsTotalOrder(a.name, a.name, a.name);
    }
    Select(ordered, TaskItem)
  }

  /** Each task has its entry, and each entry names a task and parses back to its id. */
  lemma AvailableTasksAreTheTasks(tasks: seq<ScheduleTask>)
    ensures forall t :: t in tasks ==> TaskItem(t) in GetAvailableTasks(tasks)
    ensures forall item :: item in GetAvailableTasks(tasks) ==>
      exists t :: t in tasks && item.text == t.name && Text.ParseInt(item.value) == t.id
  {
    var ordered := TasksInListOrder(tasks);
    var items := GetAvailableTasks(tasks);
    forall t | t in tasks ensures TaskItem(t) in items {
      assert t in multiset(ordered);
      var k :| 0 <= k < |ordered| && ordered[k] == t;
      assert items[k] == TaskItem(t);
    }
    forall item | item in items
      ensures exists t :: t in tasks && item.text == t.name && Text.ParseInt(item.value) == t.id
    {
      var k :| 0 <= k < |items| && items[k] == item;
      assert ordered[k] in multiset(tasks);
      Text.IntTextRoundTrip(ordered[k].id);
    }
  }

  /** `GetAvailableStates`: success then error, valued by their state ids. */
  function GetAvailableStates(successLabel: string, errorLabel: string): (r: seq<SelectListItem>)
    ensures |r| == 2 && r[0].text == successLabel && r[1].text == errorLabel
    ensures Text.ParseInt(r[0].value) == SuccessStateId && Text.ParseInt(r[1].value) == ErrorStateId
  {
    Text.IntTextRoundTrip(SuccessStateId);
    Text.IntTextRoundTrip(ErrorStateId);
    [SelectListItem(successLabel, Text.IntText(SuccessStateId)), SelectListItem(errorLabel, Text.IntText(ErrorStateId))]
  }

  /** `GetAvailableTriggerTypes`: by scheduler then by user, valued by their trigger ids. */
  function GetAvailableTriggerTypes(bySchedulerLabel: string, byUserLabel: string): (r: seq<SelectListItem>)
    ensures |r| == 2 && r[0].text == bySchedulerLabel && r[1].text == byUserLabel
    ensures Text.ParseInt(r[0].value) == TriggerScheduleId && Text.ParseInt(r[1].value) == TriggerUserId
  {
    Text.IntTextRoundTrip(TriggerScheduleId);
    Text.IntTextRoundTrip(TriggerUserId);
    [SelectListItem(bySchedulerLabel, Text.IntText(TriggerScheduleId)), SelectListItem(byUserLabel, Text.IntText(TriggerUserId))]
  }

  /** Posting back the value of state option k selects the successes (k = 0) or the errors (k = 1). */
  lemma StateOptionSelectsOutcome(successLabel: string, errorLabel: string, k: int, f: SearchModel, e: EventRecord)
    requires 0 <= k < 2
    ensures var item := GetAvailableStates(successLabel, errorLabel)[k];
      Matches(f.(stateId := Text.ParseInt(item.value)), e) <==> Matches(f.(stateId := 0), e) && e.isError == (k == 1)
  {
  }

  /** Posting back the value of trigger option k selects scheduled (k = 0) or manual (k = 1) runs. */
  lemma TriggerOptionSelectsTrigger(bySchedulerLabel: string, byUserLabel: string, k: int, f: SearchModel, e: EventRecord)
    requires 0 <= k < 2
    ensures var item := GetAvailableTriggerTypes(bySchedulerLabel, byUserLabel)[k];
      Matches(f.(triggerTypeId := Text.ParseInt(item.value)), e) <==> Matches(f.(triggerTypeId := 0), e) && e.isStartedManually == (k == 1)
  {
  }
}
