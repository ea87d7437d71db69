/**
 * The reinvocation scheduler: when a handler asks to be called back after a
 * delay, either wait inside the current Lambda invocation, or create a
 * one-shot CloudWatch Events rule that re-invokes the function later; and
 * the removal of such a rule once it has fired.
 *
 * The CloudWatch Events client, the Lambda context, the clock, `time.Sleep`
 * and the UUID generator are not called: their answers are parameters, and
 * every client call and sleep the code would make is recorded, in order, in
 * the trace returned next to the result.
 */
module Scheduler {
  import opened Wrappers
  import opened CfnErr
  import Civil
  import Cron
  import ErrorCode

  /** The prefixes the format strings `reinvoke-handler-%s` and `reinvoke-target-%s` put before the token. */
  const HandlerPrefix: string := "reinvoke-handler-"
  const TargetPrefix: string := "reinvoke-target-"

  /** The error codes the scheduler reports under. */
  const InvalidRequestError: string := "InvalidRequest"
  const ServiceInternalError: string := "ServiceInternal"
  const ValidationError: string := "Validation"

  /** `cloudwatchevents.RuleStateEnabled`. */
  const RuleStateEnabled: string := "ENABLED"

  /** Below this many seconds a local wait is considered; it is also the external floor. */
  const MinuteSeconds: int := 60

  /** `SchedulerResult`. */
  datatype SchedulerResult = SchedulerResult(computeLocal: bool, target: string, handler: string)

  /** A CloudWatch Events target: what to invoke, under which id, with which input. */
  datatype Target = Target(arn: string, id: string, input: string)

  /** One external effect: a sleep of the current invocation or a CloudWatch Events call. */
  datatype Effect =
    | Sleep(seconds: int)
    | PutRule(name: string, scheduleExpression: string, state: string)
    | PutTargets(rule: string, targets: seq<Target>)
    | RemoveTargets(rule: string, ids: seq<string>)
    | DeleteRule(name: string)

  /** A result together with the effects performed to reach it, oldest first. */
  datatype Run<T> = Run(result: T, trace: seq<Effect>)

  /** What the Lambda context exposes: the ARN of the running function. */
  datatype LambdaContext = LambdaContext(invokedFunctionArn: string)

  /**
   * The invocation `Reschedule` runs in: the Lambda context if the Go context
   * carries one, the seconds left until the invocation's deadline, and the
   * wall-clock time used to compute the fire time.
   */
  datatype Invocation = Invocation(lambda: Option<LambdaContext>, secondsUntilDeadline: real, now: Civil.Instant)

  /**
   * The answers of the collaborators `Reschedule` consults: the generated
   * UUID (as text) or its error, and the error, if any, of each client call.
   */
  datatype ScheduleOutcomes = ScheduleOutcomes(uuid: Result<string, Fault>, putRule: Option<Fault>, putTargets: Option<Fault>)

  /** The rule name: `reinvoke-handler-` followed by the UUID. */
  function HandlerId(token: string): (id: string)
    ensures |id| == |HandlerPrefix| + |token|
    ensures id[..|HandlerPrefix|] == HandlerPrefix && id[|HandlerPrefix|..] == token
  {
    HandlerPrefix + token
  }

  /** The target id: `reinvoke-target-` followed by the UUID. */
  function TargetId(token: string): (id: string)
    ensures |id| == |TargetPrefix| + |token|
    ensures id[..|TargetPrefix|] == TargetPrefix && id[|TargetPrefix|..] == token
  {
    TargetPrefix + token
  }

  /** The local-wait rule: under a minute, and more than 1.2 times the delay left in the budget. */
  predicate WaitsLocally(secsFromNow: int, secondsUntilDeadline: real): (b: bool)
    ensures b <==> secsFromNow < 60 && 5.0 * secondsUntilDeadline > 6.0 * secsFromNow as real
    ensures b && secsFromNow > 0 ==> secondsUntilDeadline > secsFromNow as real
  {
    secsFromNow < MinuteSeconds && secondsUntilDeadline > secsFromNow as real * 1.2
  }

  /** The delay the external rule is scheduled with: never under a minute. */
  function ExternalDelay(secsFromNow: int): (d: int)
    ensures d >= MinuteSeconds
    ensures d >= secsFromNow
    ensures d == secsFromNow || d == MinuteSeconds
  {
    if secsFromNow < MinuteSeconds then MinuteSeconds else secsFromNow
  }

  function InternalError(message: string, cause: Option<Fault>): CfnError {
    CfnError(ServiceInternalError, message, cause)
  }

  /** Whether the invocation waited locally at some point of a trace. */
  predicate Sleeps(trace: seq<Effect>) {
    exists e :: e in trace && e.Sleep?
  }

  /**
   * `Scheduler.Reschedule`: arrange for the handler to be called back
   * `secsFromNow` seconds from now with `callbackRequest` as input.
   */
  function Reschedule(inv: Invocation, secsFromNow: int, callbackRequest: string, out: ScheduleOutcomes)
    : (run: Run<Result<SchedulerResult, CfnError>>)
    ensures run.result.Err? ==> run.result.error.code == ServiceInternalError
    ensures |run.trace| <= 2
    ensures Sleeps(run.trace) <==> run.result.Ok? && run.result.value.computeLocal
    ensures run.result.Ok? ==>
              && out.uuid.Ok?
              && run.result.value.handler == HandlerId(out.uuid.value)
              && run.result.value.target == TargetId(out.uuid.value)
  {
    if inv.lambda.None? then
      Run(Err(InternalError("Lambda Context has no value", Some(Fault("Lambda Context has no value")))), [])
    else if secsFromNow <= 0 then
      Run(Err(InternalError("Scheduled seconds must be greater than 0",
                            Some(Fault("Scheduled seconds must be greater than 0")))), [])
    else if out.uuid.Err? then
      Run(Err(InternalError("uuid error", Some(out.uuid.error))), [])
    else
      ScheduleWithToken(inv, secsFromNow, out.uuid.value, callbackRequest, out)
  }

  /**
   * The rest of `Reschedule` once the UUID `token` is drawn: wait locally
   * when the delay allows it, otherwise schedule through a rule.
   */
  function ScheduleWithToken(inv: Invocation, secsFromNow: int, token: string, callbackRequest: string,
                             out: ScheduleOutcomes)
    : (run: Run<Result<SchedulerResult, CfnError>>)
    requires inv.lambda.Some?
    ensures run.result.Err? ==> run.result.error.code == ServiceInternalError
    ensures |run.trace| <= 2
    ensures Sleeps(run.trace) <==> run.result.Ok? && run.result.value.computeLocal
    ensures run.result.Ok? ==>
              && run.result.value.handler == HandlerId(token)
              && run.result.value.target == TargetId(token)
  {
    var handlerID := HandlerId(token);
    var targetID := TargetId(token);
    if WaitsLocally(secsFromNow, inv.secondsUntilDeadline) then
      var trace := [Sleep(secsFromNow)];
      assert trace[0] in trace;
      Run(Ok(SchedulerResult(true, targetID, handlerID)), trace)
    else
      var cr := Cron.GenerateOneTimeCronExpression(ExternalDelay(secsFromNow), inv.now);
      ScheduleExternally(inv.lambda.value, cr, handlerID, targetID, callbackRequest, out)
  }

  /**
   * The external branch of `Reschedule`: create the one-shot rule with
   * schedule expression `cr`, then bind the running function to it.
   */
  function ScheduleExternally(lc: LambdaContext, cr: string, handlerID: string, targetID: string,
                              callbackRequest: string, out: ScheduleOutcomes)
    : (run: Run<Result<SchedulerResult, CfnError>>)
    ensures 1 <= |run.trace| <= 2
    ensures run.trace[0] == PutRule(handlerID, cr, RuleStateEnabled)
    ensures |run.trace| == 2 <==> out.putRule.None?
    ensures |run.trace| == 2 ==>
              run.trace[1] == PutTargets(handlerID, [Target(lc.invokedFunctionArn, targetID, callbackRequest)])
    ensures !Sleeps(run.trace)
    ensures run.result.Ok? ==> run.result.value == SchedulerResult(false, targetID, handlerID)
  {
    var putRule := PutRule(handlerID, cr, RuleStateEnabled);
    if out.putRule.Some? then
      Run(Err(InternalError("Schedule error", out.putRule)), [putRule])
    else
      var putTargets := PutTargets(handlerID, [Target(lc.invokedFunctionArn, targetID, callbackRequest)]);
      if out.putTargets.Some? then
        // The Go code wraps the (nil) UUID error here, not the PutTargets error.
        Run(Err(InternalError("Schedule error", None)), [putRule, putTargets])
      else
        Run(Ok(SchedulerResult(false, targetID, handlerID)), [putRule, putTargets])
  }

  /**
   * `Scheduler.CleanupEvents`: remove the target from the rule, then delete
   * the rule; `None` when both calls succeed. `removeTargets` and
   * `deleteRule` are the errors the two client calls would return.
   */
  function CleanupEvents(ruleName: string, targetID: string, removeTargets: Option<Fault>, deleteRule: Option<Fault>)
    : (run: Run<Option<CfnError>>)
    ensures run.result.Some? ==> run.result.value.code == ServiceInternalError
    ensures run.result.None? <==> ruleName != "" && targetID != "" && removeTargets.None? && deleteRule.None?
  {
    if |ruleName| == 0 then
      Run(Some(InternalError("Unable to complete request", Some(Fault("ruleName is required")))), [])
    else if |targetID| == 0 then
      Run(Some(InternalError("Unable to complete request", Some(Fault("targetID is required")))), [])
    else
      var remove := RemoveTargets(ruleName, [targetID]);
      if removeTargets.Some? then
        Run(Some(InternalError("Error cleaning CloudWatchEvents Target (targetId=" + targetID + ")",
                               removeTargets)), [remove])
      else
        var delete := DeleteRule(ruleName);
        if deleteRule.Some? then
          Run(Some(InternalError("Error cleaning CloudWatchEvents (ruleName=" + ruleName + ")", deleteRule)),
              [remove, delete])
        else
          Run(None, [remove, delete])
  }

  // ---------------------------------------------------------------------------
  // Naming
  // ---------------------------------------------------------------------------

  /**
   * The rule and target names of one call carry the same token after their
   * prefixes; a rule name is never a target name; and different tokens give
   * different names.
   */
  lemma IdsShareToken(token: string, other: string)
    ensures HandlerId(token)[|HandlerPrefix|..] == token
    ensures TargetId(token)[|TargetPrefix|..] == token
    ensures HandlerId(token) != TargetId(other)
    ensures HandlerId(token) == HandlerId(other) <==> token == other
    ensures TargetId(token) == TargetId(other) <==> token == other
  {
    assert HandlerId(token)[9] != TargetId(other)[9];
    if HandlerId(token) == HandlerId(other) {
      assert token == HandlerId(token)[|HandlerPrefix|..];
    }
    if TargetId(token) == TargetId(other) {
      assert token == TargetId(token)[|TargetPrefix|..];
    }
  }

  // ---------------------------------------------------------------------------
  // Reschedule
  // ---------------------------------------------------------------------------

  /** Without a Lambda context the call fails before sleeping or calling the client. */
  lemma RescheduleNeedsLambdaContext(inv: Invocation, secsFromNow: int, callbackRequest: string, out: ScheduleOutcomes)
    requires inv.lambda.None?
    ensures var run := Reschedule(inv, secsFromNow, callbackRequest, out);
      && run.result.Err?
      && run.result.error.code == ServiceInternalError
      && run.trace == []
  {
  }

  /** A non-positive delay fails before sleeping or calling the client. */
  lemma RescheduleRejectsNonPositiveDelay(inv: Invocation, secsFromNow: int, callbackRequest: string, out: ScheduleOutcomes)
    requires secsFromNow <= 0
    ensures var run := Reschedule(inv, secsFromNow, callbackRequest, out);
      && run.result.Err?
      && run.result.error.code == ServiceInternalError
      && run.trace == []
  {
  }

  /** A UUID failure is reported with its cause, before any sleep or client call, whichever branch would follow. */
  lemma RescheduleUuidFailure(inv: Invocation, secsFromNow: int, callbackRequest: string, out: ScheduleOutcomes)
    requires inv.lambda.Some? && secsFromNow > 0 && out.uuid.Err?
    ensures var run := Reschedule(inv, secsFromNow, callbackRequest, out);
      && run.result == Err(CfnError(ServiceInternalError, "uuid error", Some(out.uuid.error)))
      && run.trace == []
  {
  }

  /** The well-formed calls: a Lambda context, a positive delay and a UUID. */
  predicate Admissible(inv: Invocation, secsFromNow: int, out: ScheduleOutcomes) {
    inv.lambda.Some? && secsFromNow > 0 && out.uuid.Ok?
  }

  /**
   * A well-formed call waits locally exactly when the delay is under a minute
   * and the budget exceeds 1.2 times the delay (in integers: five times the
   * budget exceeds six times the delay); it then sleeps for exactly the delay,
   * calls nothing else, and reports local computation.
   */
  lemma RescheduleLocalWait(inv: Invocation, secsFromNow: int, callbackRequest: string, out: ScheduleOutcomes)
    requires Admissible(inv, secsFromNow, out)
    ensures var run := Reschedule(inv, secsFromNow, callbackRequest, out);
      && (run.result.Ok? && run.result.value.computeLocal
          <==> secsFromNow < 60 && inv.secondsUntilDeadline > secsFromNow as real * 1.2)
      && (run.result.Ok? && run.result.value.computeLocal
          <==> secsFromNow < 60 && 5.0 * inv.secondsUntilDeadline > 6.0 * secsFromNow as real)
      && (run.result.Ok? && run.result.value.computeLocal ==> run.trace == [Sleep(secsFromNow)])
  {
  }

  /** A local wait leaves a fifth of the delay, and so some time, in the budget after it. */
  lemma LocalWaitLeavesMargin(secsFromNow: int, secondsUntilDeadline: real)
    requires secsFromNow > 0
    requires WaitsLocally(secsFromNow, secondsUntilDeadline)
    ensures secondsUntilDeadline - secsFromNow as real > secsFromNow as real / 5.0 > 0.0
  {
  }

  /** A well-formed call that does not wait locally is the external branch, scheduled `ExternalDelay` seconds out. */
  lemma RescheduleGoesExternal(inv: Invocation, secsFromNow: int, callbackRequest: string, out: ScheduleOutcomes)
    requires Admissible(inv, secsFromNow, out)
    requires !WaitsLocally(secsFromNow, inv.secondsUntilDeadline)
    ensures Reschedule(inv, secsFromNow, callbackRequest, out)
              == ScheduleExternally(inv.lambda.value,
                                    Cron.GenerateOneTimeCronExpression(ExternalDelay(secsFromNow), inv.now),
                                    HandlerId(out.uuid.value), TargetId(out.uuid.value), callbackRequest, out)
  {
  }

  /**
   * When a well-formed call does not wait locally, it does not sleep, and
   * its first effect creates the enabled rule named by the handler id with
   * the one-time expression for `ExternalDelay(secsFromNow)` seconds from
   * now: `max(secsFromNow, 60)`, never less than a minute.
   */
  lemma RescheduleExternalRule(inv: Invocation, secsFromNow: int, callbackRequest: string, out: ScheduleOutcomes)
    requires Admissible(inv, secsFromNow, out)
    requires !WaitsLocally(secsFromNow, inv.secondsUntilDeadline)
    ensures var run := Reschedule(inv, secsFromNow, callbackRequest, out);
      && 1 <= |run.trace|
      && !Sleeps(run.trace)
      && run.trace[0] == PutRule(HandlerId(out.uuid.value),
                                 Cron.GenerateOneTimeCronExpression(ExternalDelay(secsFromNow), inv.now),
                                 "ENABLED")
  {
    RescheduleGoesExternal(inv, secsFromNow, callbackRequest, out);
  }

  /** A failed rule creation is reported with its cause and targets are never put. */
  lemma ReschedulePutRuleFailure(inv: Invocation, secsFromNow: int, callbackRequest: string, out: ScheduleOutcomes)
    requires Admissible(inv, secsFromNow, out)
    requires !WaitsLocally(secsFromNow, inv.secondsUntilDeadline)
    requires out.putRule.Some?
    ensures var run := Reschedule(inv, secsFromNow, callbackRequest, out);
      && run.result == Err(CfnError(ServiceInternalError, "Schedule error", out.putRule))
      && |run.trace| == 1
      && forall e :: e in run.trace ==> e.PutRule?
  {
    RescheduleGoesExternal(inv, secsFromNow, callbackRequest, out);
  }

  /** Targets are put only right after a successful rule creation, to the same rule. */
  lemma RescheduleRuleBeforeTargets(inv: Invocation, secsFromNow: int, callbackRequest: string, out: ScheduleOutcomes, k: int)
    requires var run := Reschedule(inv, secsFromNow, callbackRequest, out);
      0 <= k < |run.trace| && run.trace[k].PutTargets?
    ensures var run := Reschedule(inv, secsFromNow, callbackRequest, out);
      && k == 1
      && out.putRule.None?
      && run.trace[0].PutRule?
      && run.trace[0].name == run.trace[1].rule
  {
  }

  /**
   * On success of both client calls the single target invokes the running
   * function under the target id with the callback request as input, and the
   * result names the same rule and target.
   */
  lemma RescheduleExternalSuccess(inv: Invocation, secsFromNow: int, callbackRequest: string, out: ScheduleOutcomes)
    requires Admissible(inv, secsFromNow, out)
    requires !WaitsLocally(secsFromNow, inv.secondsUntilDeadline)
    requires out.putRule.None? && out.putTargets.None?
    ensures var run := Reschedule(inv, secsFromNow, callbackRequest, out);
      var token := out.uuid.value;
      && run.result == Ok(SchedulerResult(false, TargetId(token), HandlerId(token)))
      && |run.trace| == 2
      && run.trace[1] == PutTargets(HandlerId(token),
                                    [Target(inv.lambda.value.invokedFunctionArn, TargetId(token), callbackRequest)])
  {
    RescheduleGoesExternal(inv, secsFromNow, callbackRequest, out);
  }

  /**
   * When putting the target fails, the error carries no cause (the code
   * wraps the nil UUID error rather than the client's), and the rule that
   * was already created is left in place: nothing deletes it.
   */
  lemma ReschedulePutTargetsFailure(inv: Invocation, secsFromNow: int, callbackRequest: string, out: ScheduleOutcomes)
    requires Admissible(inv, secsFromNow, out)
    requires !WaitsLocally(secsFromNow, inv.secondsUntilDeadline)
    requires out.putRule.None? && out.putTargets.Some?
    ensures var run := Reschedule(inv, secsFromNow, callbackRequest, out);
      && run.result == Err(CfnError(ServiceInternalError, "Schedule error", None))
      && run.result.error.cause != out.putTargets
      && run.trace[0].PutRule?
      && run.trace == [run.trace[0], PutTargets(HandlerId(out.uuid.value),
                         [Target(inv.lambda.value.invokedFunctionArn, TargetId(out.uuid.value), callbackRequest)])]
      && forall e :: e in run.trace ==> !e.DeleteRule?
  {
    RescheduleGoesExternal(inv, secsFromNow, callbackRequest, out);
  }

  /** The scheduler's own error code is not a name of the handler error taxonomy. */
  lemma SchedulerCodeOutsideTaxonomy()
    ensures ErrorCode.Convert(ServiceInternalError) == ErrorCode.Unknown
  {
    ErrorCode.ConvertUnmatched(ServiceInternalError);
  }

  // ---------------------------------------------------------------------------
  // CleanupEvents
  // ---------------------------------------------------------------------------

  /** An empty rule name or target id is rejected without calling the client. */
  lemma CleanupRejectsEmptyArguments(ruleName: string, targetID: string, removeTargets: Option<Fault>, deleteRule: Option<Fault>)
    requires ruleName == "" || targetID == ""
    ensures var run := CleanupEvents(ruleName, targetID, removeTargets, deleteRule);
      && run.result.Some?
      && run.result.value.code == ServiceInternalError
      && run.trace == []
  {
  }

  /**
   * With both arguments present, the target is removed before the rule is
   * deleted, the rule is deleted only if the removal succeeded, and a failure
   * is reported with the failing call's error as cause.
   */
  lemma CleanupOrder(ruleName: string, targetID: string, removeTargets: Option<Fault>, deleteRule: Option<Fault>)
    requires ruleName != "" && targetID != ""
    ensures var run := CleanupEvents(ruleName, targetID, removeTargets, deleteRule);
      && 1 <= |run.trace| <= 2
      && run.trace[0] == RemoveTargets(ruleName, [targetID])
      && (|run.trace| == 2 <==> removeTargets.None?)
      && (|run.trace| == 2 ==> run.trace[1] == DeleteRule(ruleName))
      && (removeTargets.Some? ==> run.result.Some? && run.result.value.cause == removeTargets)
      && (removeTargets.None? && deleteRule.Some? ==> run.result.Some? && run.result.value.cause == deleteRule)
  {
  }
}
