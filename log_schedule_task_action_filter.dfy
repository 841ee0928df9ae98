/**
 * The action filter that reroutes the host's "run task" actions to the
 * plugin's `TaskRunner` controller, so that every run is logged. It only
 * sets the context's result; the rerouted actions are in `Controllers`.
 */
module Filters {
  import opened Wrappers
  import opened Domain
  import Text

  /** The plugin controller the filter redirects to. */
  const ControllerName: string := "TaskRunner"

  /** The controller an intercepted action belongs to. */
  datatype ControllerKind =
    | RootScheduleTask   // the public-site `ScheduleTaskController` (scheduled runs)
    | AdminScheduleTask  // the admin-area `ScheduleTaskController` ("Run now")
    | OtherController

  /** A value in the action arguments or in the route values. */
  datatype RouteValue = StringValue(s: string) | IntValue(n: int) | NullValue

  /** The only result the filter sets. */
  datatype ActionResult = RedirectToRoute(routeValues: map<string, RouteValue>)

  /** Where a scheduled run is sent: `RunTask` with the task type, outside any area. */
  function RunTaskRedirect(taskType: RouteValue): ActionResult
  {
    RedirectToRoute(map[
      "controller" := StringValue(ControllerName),
      "action" := StringValue("RunTask"),
      "taskType" := taskType,
      "area" := StringValue("")])
  }

  /** Where a manual run is sent: `RunNow` with the task id, in the admin area. */
  function RunNowRedirect(id: RouteValue): ActionResult
  {
    RedirectToRoute(map[
      "controller" := StringValue(ControllerName),
      "action" := StringValue("RunNow"),
      "id" := id,
      "area" := StringValue("Admin")])
  }

  /**
   * The filter's decision: `Ok(None)` leaves the result alone, `Ok(Some(r))`
   * sets it to `r`, and `Err` is the missing-argument fault of reading the
   * arguments dictionary.
   */
  function Decide(disableLog: bool, controller: ControllerKind, actionName: string,
                  arguments: map<string, RouteValue>): (r: Result<Option<ActionResult>>)
    ensures disableLog || controller == OtherController ==> r == Ok(None)
    ensures r.Err? <==> (!disableLog &&
      ((controller == RootScheduleTask && Text.EqualsIgnoreCase(actionName, "runtask") && "taskType" !in arguments) ||
       (controller == AdminScheduleTask && Text.EqualsIgnoreCase(actionName, "runnow") && "id" !in arguments)))
    ensures r.Err? ==> r.fault == KeyNotFound(if controller == RootScheduleTask then "taskType" else "id")
  {
    if disableLog then Ok(None)
    else if controller == RootScheduleTask then
      if !Text.EqualsIgnoreCase(actionName, "runtask") then Ok(None)
      else if "taskType" !in arguments then Err(KeyNotFound("taskType"))
      else Ok(Some(RunTaskRedirect(arguments["taskType"])))
    else if controller == AdminScheduleTask then
      if !Text.EqualsIgnoreCase(actionName, "runnow") then Ok(None)
      else if "id" !in arguments then Err(KeyNotFound("id"))
      else Ok(Some(RunNowRedirect(arguments["id"])))
    else Ok(None)
  }

  /**
   * A result is set exactly for the root controller's "runtask" and the admin
   * controller's "runnow" (in any letter case) when logging is on.
   */
  lemma RedirectsExactlyTheRunActions(disableLog: bool, controller: ControllerKind, actionName: string,
                                      arguments: map<string, RouteValue>)
    ensures Decide(disableLog, controller, actionName, arguments).Ok? && Decide(disableLog, controller, actionName, arguments).value.Some?
      <==> !disableLog &&
           ((controller == RootScheduleTask && Text.EqualsIgnoreCase(actionName, "runtask") && "taskType" in arguments) ||
            (controller == AdminScheduleTask && Text.EqualsIgnoreCase(actionName, "runnow") && "id" in arguments))
  {
  }

  /** A redirect targets the plugin controller and carries the incoming argument. */
  lemma RedirectForwardsTheArgument(disableLog: bool, controller: ControllerKind, actionName: string,
                                    arguments: map<string, RouteValue>, values: map<string, RouteValue>)
    requires Decide(disableLog, controller, actionName, arguments) == Ok(Some(RedirectToRoute(values)))
    ensures values.Keys == {"controller", "action", "area", if controller == RootScheduleTask then "taskType" else "id"}
    ensures values["controller"] == StringValue(ControllerName)
    ensures controller == RootScheduleTask ==>
      values["action"] == StringValue("RunTask") && values["taskType"] == arguments["taskType"] && values["area"] == StringValue("")
    ensures controller == AdminScheduleTask ==>
      values["action"] == StringValue("RunNow") && values["id"] == arguments["id"] && values["area"] == StringValue("Admin")
    ensures controller != OtherController
  {
  }

  /** The crossed pairs are not intercepted: root + RunNow and admin + RunTask. */
  lemma CrossedPairsPassThrough(arguments: map<string, RouteValue>)
    ensures Decide(false, RootScheduleTask, "RunNow", arguments) == Ok(None)
    ensures Decide(false, AdminScheduleTask, "RunTask", arguments) == Ok(None)
  {
  }

  /** The action names match in any letter case. */
  lemma ActionNamesIgnoreCase(taskType: RouteValue, id: RouteValue)
    ensures Decide(false, RootScheduleTask, "RunTask", map["taskType" := taskType]) == Ok(Some(RunTaskRedirect(taskType)))
    ensures Decide(false, RootScheduleTask, "RUNTASK", map["taskType" := taskType]) == Ok(Some(RunTaskRedirect(taskType)))
    ensures Decide(false, AdminScheduleTask, "RunNow", map["id" := id]) == Ok(Some(RunNowRedirect(id)))
    ensures Decide(false, AdminScheduleTask, "runNOW", map["id" := id]) == Ok(Some(RunNowRedirect(id)))
  {
  }

  /** The context of an action about to run; the filter may set its result. */
  class ActionExecutingContext {
    const controller: ControllerKind
    const actionName: string
    const actionArguments: map<string, RouteValue>
    var result: Option<ActionResult>

    constructor (controller: ControllerKind, actionName: string, actionArguments: map<string, RouteValue>)
      ensures this.controller == controller && this.actionName == actionName
      ensures this.actionArguments == actionArguments && result == None
    {
      this.controller := controller;
      this.actionName := actionName;
      this.actionArguments := actionArguments;
      result := None;
    }
  }

  /** The context of an action that has run. */
  class ActionExecutedContext {
    var result: Option<ActionResult>

    constructor (result: Option<ActionResult>)
      ensures this.result == result
    {
      this.result := result;
    }
  }

  class LogScheduleTaskActionFilter {
    const settings: Settings

    constructor (settings: Settings)
      ensures this.settings == settings
    {
      this.settings := settings;
    }

    /**
     * Redirects the host's run actions to the plugin controller unless
     * logging is disabled. A missing argument is the dictionary's fault,
     * raised before the result is assigned.
     */
    method OnActionExecuting(context: ActionExecutingContext) returns (outcome: Outcome)
      modifies context
      ensures var d := Decide(settings.disableLog, context.controller, context.actionName, context.actionArguments);
        (d.Err? ==> outcome == Fail(d.fault) && context.result == old(context.result)) &&
        (d == Ok(None) ==> outcome == Pass && context.result == old(context.result)) &&
        (d.Ok? && d.value.Some? ==> outcome == Pass && context.result == d.value)
    {
      if settings.disableLog {
        return Pass;
      }
      if context.controller == RootScheduleTask {
        if Text.EqualsIgnoreCase(context.actionName, "runtask") {
          if "taskType" !in context.actionArguments {
            return Fail(KeyNotFound("taskType"));
          }
          context.result := Some(RunTaskRedirect(context.actionArguments["taskType"]));
        }
      } else if context.controller == AdminScheduleTask {
        if Text.EqualsIgnoreCase(context.actionName, "runnow") {
          if "id" !in context.actionArguments {
            return Fail(KeyNotFound("id"));
          }
          context.result := Some(RunNowRedirect(context.actionArguments["id"]));
        }
      }
      return Pass;
    }

    /** Nothing happens after the action. */
    method OnActionExecuted(context: ActionExecutedContext)
      ensures context.result == old(context.result)
    {
    }
  }
}
