# CloudFormation resource-provider plugin core: reinvocation scheduler, error codes, progress events

This project models three parts of the Go plugin that runs a CloudFormation
resource handler inside AWS Lambda:

- **The reinvocation scheduler** (`cfn/scheduler`). A handler can ask to be
  called back after a delay. A short delay that fits in the Lambda's remaining
  time with a 20% margin is served by sleeping in place. Any other delay is
  served by a one-time CloudWatch Events rule. The rule is given a
  `cron(MM HH DD MO ? YYYY)` schedule computed from a delay of at least a
  minute; since the expression drops the seconds, the minute it names can
  begin less than a second from now (one second with whole-second instants). The rule also gets a target that
  re-invokes the same function with the callback request. `CleanupEvents`
  removes that target and rule afterwards.
- **The error-code taxonomy** (`cfn/errcode`). A `Status` enumeration of
  fifteen codes is given. `String` gives each code's name, and `Convert` does a
  case-insensitive lookup of a name. The comments in the Go code sort the codes
  into Terminal and Retriable ones.
- **The progress event** (`cfn/handler`). This is the record a handler returns.
  It holds a status, an error code, a message, the callback context and delay,
  and the resource model. The model includes its conversion to a response
  (`MarshalResponse`) and to callback data (`MarshalCallback`), and the two
  constructors.

The modules and what is in them:

- `Scheduler` (scheduler.dfy) models the scheduler as pure functions.
  - The CloudWatch Events client becomes a `ScheduleOutcomes` parameter. It
    holds the UUID generator's result and the error, if any, that `PutRule` and
    `PutTargets` return.
  - Each operation returns its result together with a trace of the `Effect`s it
    performed: sleeps and client calls, in order.
  - The Lambda context, the time left before the deadline and the current
    instant are fields of an `Invocation`.
- `Cron` (cron.dfy) models the cron expression as written. It also has a parser
  for the same layout. The parser lets the model state which minute an
  expression names.
- `Civil` (civil.dfy) is the proleptic Gregorian calendar, in UTC, that
  `time.Time` gives the expression its fields from.
- `ErrorCode` (error_code.dfy) models the `Status` enumeration, its two
  conversions, and the Terminal/Retriable classification.
- `ProgressEvent` (progress_event.dfy) models the event, the response and their
  conversions.
- `CfnErr` (cfn_error.dfy) is a minimal stand-in for the `cfnerr` error: a code,
  a message and an optional cause.
- `Wrappers` (wrappers.dfy) holds `Option` and `Result`.

Several behaviours of the code as written are modelled faithfully and stated as
lemmas:

- When `PutTargets` fails, the returned error wraps the UUID step's error, which
  is nil at that point, instead of the `PutTargets` error. No cleanup of the
  rule already created follows.
- `MarshalResponse` attaches an error code only when the handler's error code is
  *empty*.
- The cron expression drops the seconds. So with a delay of 60 the rule's minute
  can begin less than a second after now (one second with whole-second
  instants).
- The scheduler reports its errors with the code `"ServiceInternal"`, which is
  not a name of the `errcode` taxonomy. `Convert` maps it to `Unknown`.

## Model

| member | source | states |
|---|---|---|
| Scheduler.Reschedule | cfn/scheduler/scheduler.go:52-118 | Every error carries the code ServiceInternal. At most two effects are performed. The invocation sleeps exactly when it succeeds with local computation. On success the handler and target ids are the two prefixes followed by the same UUID |
| Scheduler.ScheduleExternally | cfn/scheduler/scheduler.go:91-117 | `PutRule` is always called first, with the handler id, the cron expression and state ENABLED. `PutTargets` follows exactly when `PutRule` succeeded, whatever its own outcome, and always binds the handler id's rule to one target carrying the function ARN, the target id and the callback request. Nothing sleeps. Success reports non-local computation with both ids |
| Scheduler.ExternalDelay | cfn/scheduler/scheduler.go:86-89 | The delay given to the rule is never under 60 seconds and never under the requested delay. It is one of the two |
| Scheduler.HandlerId | cfn/scheduler/scheduler.go:74 | The rule name is `reinvoke-handler-` followed by exactly the UUID |
| Scheduler.TargetId | cfn/scheduler/scheduler.go:75 | The target id is `reinvoke-target-` followed by exactly the UUID |
| Scheduler.WaitsLocally | cfn/scheduler/scheduler.go:77 | The local-wait test holds iff the delay is under 60 and five times the remaining time exceeds six times the delay. A positive delay that passes it ends before the deadline |
| Scheduler.ScheduleWithToken | cfn/scheduler/scheduler.go:74-117 | Once the UUID is drawn, every error carries ServiceInternal, at most two effects are performed, the call sleeps iff it succeeds locally, and success reports the two ids built from that UUID |
| Scheduler.RescheduleGoesExternal | cfn/scheduler/scheduler.go:86-91 | A well-formed call that fails the local-wait test is the external branch, with the expression for the delay raised to at least 60 seconds, taken from now |
| Scheduler.IdsShareToken | cfn/scheduler/scheduler.go:18-20 | The handler and target ids each end with the UUID, each determines the UUID, and a handler id never equals a target id |
| Scheduler.RescheduleNeedsLambdaContext | cfn/scheduler/scheduler.go:54-58 | Without a Lambda context the call fails with ServiceInternal and performs no effect |
| Scheduler.RescheduleRejectsNonPositiveDelay | cfn/scheduler/scheduler.go:63-66 | A delay of zero or less fails with ServiceInternal and performs no effect |
| Scheduler.RescheduleUuidFailure | cfn/scheduler/scheduler.go:68-72 | A UUID failure gives the error "uuid error" caused by the generator's error, with no effect |
| Scheduler.RescheduleLocalWait | cfn/scheduler/scheduler.go:77-84 | For a well-formed call, computing locally holds iff the delay is under 60 and the remaining time exceeds 1.2 times the delay. An equivalent integer-scaled form is also given. The only effect is then a sleep of exactly the delay |
| Scheduler.LocalWaitLeavesMargin | cfn/scheduler/scheduler.go:48-51 | When the invocation waits locally, more than a fifth of the delay is left before the deadline once the wait ends |
| Scheduler.RescheduleExternalRule | cfn/scheduler/scheduler.go:86-102 | When the local-wait test fails, nothing sleeps. The first effect is `PutRule`: its name is the handler id and its schedule is the expression for the delay raised to at least 60 seconds, taken from now |
| Scheduler.ReschedulePutRuleFailure | cfn/scheduler/scheduler.go:93-102 | A `PutRule` failure gives "Schedule error" caused by that failure. `PutRule` is the only effect |
| Scheduler.RescheduleRuleBeforeTargets | cfn/scheduler/scheduler.go:93-112 | Any `PutTargets` effect is the second one. It only happens after a successful `PutRule`, and it names the rule that `PutRule` created |
| Scheduler.RescheduleExternalSuccess | cfn/scheduler/scheduler.go:103-117 | When both calls succeed, the target carries the function ARN, the target id and the callback request. The result is non-local with both ids |
| Scheduler.ReschedulePutTargetsFailure | cfn/scheduler/scheduler.go:113-115 | A `PutTargets` failure gives "Schedule error" with no cause, not the `PutTargets` error. The call was made with the same target as on success. The rule already created is not deleted |
| Scheduler.SchedulerCodeOutsideTaxonomy | cfn/scheduler/scheduler.go:22 | The scheduler's code "ServiceInternal" converts to Unknown in the error-code taxonomy |
| Scheduler.CleanupEvents | cfn/scheduler/scheduler.go:122-154 | Every error carries ServiceInternal. Cleanup succeeds iff both names are non-empty and both client calls succeed |
| Scheduler.CleanupRejectsEmptyArguments | cfn/scheduler/scheduler.go:124-129 | An empty rule name or target id fails before any client call |
| Scheduler.CleanupOrder | cfn/scheduler/scheduler.go:130-153 | The target is removed from the rule first. The rule is deleted only if that succeeded. Each failure's cause is the failing call's error |
| Cron.GenerateOneTimeCronExpression | cfn/scheduler/scheduler.go:156-160 | The generated expression reads back as the year, month, day, hour and minute of the instant `secFromNow` seconds after now |
| Cron.FiresAtMinuteStart | cfn/scheduler/scheduler.go:157-160 | The minute the expression names begins at the target instant minus its seconds, so between 59 seconds before the target and the target itself |
| Cron.MinuteDelayCanFireOneSecondLater | cfn/scheduler/scheduler.go:86-91 | With now at 59 seconds past the epoch and a delay of 60, the rule's minute begins at second 60, one second after now |
| Cron.NewYear2024Example | cfn/scheduler/scheduler.go:157-160 | 90 seconds after 2024-01-01T00:00:00Z the expression is `cron(01 00 01 01 ? 2024)` |
| Cron.RenderParses | cfn/scheduler/scheduler.go:159 | Any minute whose two-digit fields are below 100 is read back unchanged from the rendered expression |
| Cron.Render | cfn/scheduler/scheduler.go:159 | The rendered expression starts with `cron(` and ends with `)`. When every two-digit field is below 100, the `%02d` minute, hour, day and month sit at fixed positions between single spaces, followed by ` ? ` and the `%d` year |
| Cron.Decimal | cfn/scheduler/scheduler.go:159 | The `%d` numeral of a natural number is non-empty and all digits, one digit exactly below 10 and two digits from 10 to 99, and has no leading zero when the number is positive |
| Cron.Pad2 | cfn/scheduler/scheduler.go:159 | The `%02d` field is all digits, at least two of them, and exactly two below 100 |
| Cron.FormatInt | cfn/scheduler/scheduler.go:159 | The `%d` rendering of any integer is non-empty, starts with a minus sign exactly when the integer is negative, and has no leading zero, neither for a positive integer nor after the sign of a negative one |
| Cron.ParseDecimal | cfn/scheduler/scheduler.go:159 | The decimal digits `%d` prints for a natural number read back as that number |
| Cron.ParsePad2 | cfn/scheduler/scheduler.go:159 | A `%02d` field of a number below 100 reads back as that number |
| Cron.ParseFormatInt | cfn/scheduler/scheduler.go:159 | The `%d` rendering of any integer, negative years included, reads back as that integer |
| Cron.ParseNatural | cfn/scheduler/scheduler.go:159 | A string parses as a natural number iff it is non-empty and all digits |
| Civil.FromInstant | cfn/scheduler/scheduler.go:158-159 | The calendar fields of an instant form a valid UTC date-time that maps back to the same instant |
| Civil.FromToInstant | cfn/scheduler/scheduler.go:158-159 | Converting a valid date-time to an instant and back gives the same date-time |
| Civil.FourYearCycleStarts | cfn/scheduler/scheduler.go:158 | In the Gregorian calendar that `time.Time` follows, year 1970 + 4k starts 1461k days after the Unix epoch for every k up to 32 (year 2098), one leap day per four years |
| Civil.DayNumberInjective | cfn/scheduler/scheduler.go:158-159 | Two valid dates with the same day number are the same date |
| Civil.DateOf | cfn/scheduler/scheduler.go:158-159 | The date holding a day number is valid and has that day number |
| ErrorCode.Name | cfn/errcode/error_code.go:10-34 | The name is "Unknown" exactly for codes outside NotUpdatable..InternalFailure |
| ErrorCode.NamesFollowConstants | cfn/errcode/error_code.go:15-33 | Each of the fifteen constants, declared in iota order, is named by its own identifier |
| ErrorCode.NameOutsideRange | cfn/errcode/error_code.go:11-13 | Any code outside NotUpdatable..InternalFailure, negative ones included, is named "Unknown" |
| ErrorCode.Convert | cfn/errcode/error_code.go:37-65 | The result is a defined code. A code other than Unknown has a name equal to the input up to case. With no match, the result is Unknown |
| ErrorCode.FirstMatch | cfn/errcode/error_code.go:58-64 | The scan returns the first index whose upper-cased entry equals the key, or Unknown when none does |
| ErrorCode.ConvertName | cfn/errcode/error_code.go:10-65 | `Convert` inverts `String` on every defined code |
| ErrorCode.ConvertExactly | cfn/errcode/error_code.go:37-65 | For each code NotUpdatable..InternalFailure, a string converts to it iff the string equals the code's name up to case |
| ErrorCode.ConvertIgnoresCase | cfn/errcode/error_code.go:38 | Upper-casing or lower-casing the input does not change the result of `Convert` |
| ErrorCode.UpperNamesDistinct | cfn/errcode/error_code.go:40-56 | No two names in the table are equal up to case, so the first match is the only match |
| ErrorCode.ConvertUnmatched | cfn/errcode/error_code.go:58-64 | A string that differs in length, first letter or eighth letter from every name converts to Unknown |
| ErrorCode.ConvertUpperCaseExample | cfn/errcode/error_code.go:37-65 | "THROTTLING" converts to Throttling |
| ErrorCode.ConvertLowerCaseExample | cfn/errcode/error_code.go:37-65 | "throttling" converts to Throttling |
| ErrorCode.ConvertUnknownExample | cfn/errcode/error_code.go:37-65 | "not-a-code" converts to Unknown |
| ErrorCode.UpperIdempotent | cfn/errcode/error_code.go:38 | Upper-casing twice is the same as upper-casing once |
| ErrorCode.UpperOfLower | cfn/errcode/error_code.go:38 | Upper-casing a lower-cased string is the same as upper-casing the original |
| ErrorCode.ClassOf | cfn/errcode/error_code.go:67-123 | Exactly the codes NotUpdatable..InternalFailure have a class. Only codes the comments mark Retriable are Retriable |
| ErrorCode.Upper | cfn/errcode/error_code.go:38 | The ASCII restriction of `strings.ToUpper`: the length is kept, each ASCII lower-case letter becomes its upper-case form in place, and every other character stays as it is |
| ErrorCode.Lower | cfn/errcode/error_code.go:38 | Lower-casing, used to state that `Convert` ignores case, keeps the length and lower-cases each ASCII letter in place, leaving every other character alone |
| ErrorCode.ClassificationPartition | cfn/errcode/error_code.go:67-123 | Exactly the codes NotUpdatable..InternalFailure have a class. The Retriable ones are those the comments mark Retriable. Unknown and out-of-range codes have none |
| ProgressEvent.MarshalResponse | cfn/handler/progress_event.go:42-57 | The marshalled error is always nil. Status and message are copied. A model is present iff the event has one |
| ProgressEvent.ErrorCodeGuardInverted | cfn/handler/progress_event.go:48-50 | The response carries an error code iff the event's handler error code is empty. That error then has an empty code and the event's message |
| ProgressEvent.ResponseCarriesModel | cfn/handler/progress_event.go:52-54 | The response's resource model is the event's, absence included |
| ProgressEvent.MarshalIgnoresCallbackState | cfn/handler/progress_event.go:42-65 | The callback context has no effect on either conversion. The callback delay has no effect on the response |
| ProgressEvent.MarshalCallback | cfn/handler/progress_event.go:61-65 | The callback values are always empty, and the delay is the event's |
| ProgressEvent.NewFailedEvent | cfn/handler/progress_event.go:69-75 | The event is Failed and takes the error's message and code. Every other field is at its zero value |
| ProgressEvent.FailedEventResponse | cfn/handler/progress_event.go:42-75 | The response to a failed event built from an error with a non-empty code carries no error code. With an empty code it carries one |
| ProgressEvent.NewEvent | cfn/handler/progress_event.go:79-84 | The event has status Unknown and the background context. Every other field is at its zero value |
| ProgressEvent.NewEventMarshals | cfn/handler/progress_event.go:42-84 | A fresh event marshals to status Unknown, an empty message, an empty-coded error and no model. Its callback data is empty with delay 0 |

## Left out

- The CloudWatch Events client is modelled as the `putRule` and `putTargets` fields of the `ScheduleOutcomes` parameter `out` of `Reschedule`, and as the `removeTargets` and `deleteRule` parameters of `CleanupEvents`. The effects performed are returned as a trace.
- `time.Sleep` is a `Sleep` effect in the trace. Real waiting is not modelled.
- `uuid.NewUUID` is the input `out.uuid`. Global uniqueness of version-1 UUIDs is not modelled, and the UUID's text is any string.
- The Lambda context, the deadline and `time.Now()` are inputs of `Invocation`. `lambdacontext.FromContext` becomes an optional Lambda context.
- Scheduler.Reschedule: `time.Until(deadline).Seconds()` and `float64(secsFromNow)*1.2` are exact reals. The float64 rounding at the boundary is not modelled.
- Cron.GenerateOneTimeCronExpression: the `time.Duration` overflow of `time.Second * time.Duration(secFromNow)` (cfn/scheduler/scheduler.go:158) for delays beyond about 292 years is not modelled; the delay is added as an unbounded integer.
- Cron.GenerateOneTimeCronExpression: `now` is a whole number of seconds in UTC. The local time zone of `time.Now()` and the sub-second part are not modelled.
- Logging (`log.Printf`, `log.Println`) is not modelled.
- ErrorCode.Upper: `strings.ToUpper` is modelled on ASCII letters only. Unicode case mapping is not modelled. For example, the long s U+017F upper-cases to `S` in Go.
- The `operationstatus`, `cfnerr` and `Response` types are not part of this model. They appear as minimal stand-ins with just the fields used here.
- `context.Context` is a three-way datatype: nil, background, or values. `interface{}` resource models are a type parameter.
- `CallbackContextValues` is a map from string to string.
- `scheduler.New` and the `Scheduler` struct only hold the client, which is a parameter here, so they have no counterpart.
- The Terminal/Retriable classification comes from the comments in the Go code. No Go code consults it.
