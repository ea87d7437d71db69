/**
 * The progress event a CRUD handler returns, its two constructors, and its
 * conversions into the response sent back to CloudFormation and into the
 * callback descriptor used to re-invoke the handler.
 */
module ProgressEvent {
  import opened Wrappers
  import opened CfnErr

  /**
   * The handler progress states of the `operationstatus` package. That
   * package is not part of this model; the constructors here only use
   * `Unknown` and `Failed`, the other two stand for the remaining states.
   */
  datatype OperationStatus = Unknown | InProgress | Success | Failed

  /** The Go context carried as callback context: nil, `context.Background()`, or one carrying values. */
  datatype CallbackContext = NilContext | Background | WithValues(values: map<string, string>)

  /** Go's `int64`. */
  newtype Int64 = x: int | -0x8000_0000_0000_0000 <= x < 0x8000_0000_0000_0000

  /** The key/value map handed to the RPDK to carry state into the next invocation. */
  type CallbackContextValues = map<string, string>

  /** `IProgressEvent`; `M` is the type of the resource model, absent when nil. */
  datatype ProgressEvent<M> = ProgressEvent(
    operationStatus: OperationStatus,
    handlerErrorCode: string,
    message: string,
    callbackContext: CallbackContext,
    callbackDelaySeconds: Int64,
    resourceModel: Option<M>)

  /** The fields of the handler response that `MarshalResponse` sets. */
  datatype Response<M> = Response(
    operationStatus: OperationStatus,
    message: string,
    errorCode: Option<CfnError>,
    resourceModel: Option<M>)

  /** `NewResponse`: every field at its zero value. */
  function NewResponse<M>(): Response<M> {
    Response(Unknown, "", None, None)
  }

  /**
   * `MarshalResponse`: the response for an event, and the error it reports,
   * which is always nil. The error code is attached only when the handler
   * error code is empty, as the code is written.
   */
  function MarshalResponse<M>(e: ProgressEvent<M>): (r: (Response<M>, Option<CfnError>))
    ensures r.1 == None
    ensures r.0.operationStatus == e.operationStatus
    ensures r.0.message == e.message
    ensures r.0.resourceModel.Some? <==> e.resourceModel.Some?
  {
    var resp := NewResponse<M>();
    var resp := resp.(operationStatus := e.operationStatus, message := e.message);
    var resp := if |e.handlerErrorCode| == 0
                then resp.(errorCode := Some(CfnError(e.handlerErrorCode, e.message, None)))
                else resp;
    var resp := if e.resourceModel.Some? then resp.(resourceModel := e.resourceModel) else resp;
    (resp, None)
  }

  /** `MarshalCallback`: the (nil, hence empty) context values and the requested delay. */
  function MarshalCallback<M>(e: ProgressEvent<M>): (r: (CallbackContextValues, Int64))
    ensures r.0 == map[]
    ensures r.1 == e.callbackDelaySeconds
  {
    var items: CallbackContextValues := map[];
    (items, e.callbackDelaySeconds)
  }

  /** `NewFailedEvent`: a Failed event reporting an error; every other field at its zero value. */
  function NewFailedEvent<M>(err: CfnError): (e: ProgressEvent<M>)
    ensures e.operationStatus == Failed
    ensures e.message == err.message && e.handlerErrorCode == err.code
    ensures e.callbackContext == NilContext && e.callbackDelaySeconds == 0 && e.resourceModel == None
  {
    ProgressEvent(Failed, err.code, err.message, NilContext, 0, None)
  }

  /** `NewEvent`: an event of Unknown status with a background context and nothing else set. */
  function NewEvent<M>(): (e: ProgressEvent<M>)
    ensures e.operationStatus == Unknown
    ensures e.handlerErrorCode == "" && e.message == ""
    ensures e.callbackContext == Background && e.callbackDelaySeconds == 0 && e.resourceModel == None
  {
    ProgressEvent(Unknown, "", "", Background, 0, None)
  }

  // ---------------------------------------------------------------------------
  // Lemmas
  // ---------------------------------------------------------------------------

  /**
   * The guard on the error code is inverted: a response carries an error
   * code exactly when the handler gave none, and then the code is empty. A
   * non-empty handler error code never reaches the response.
   */
  lemma ErrorCodeGuardInverted<M>(e: ProgressEvent<M>)
    ensures var resp := MarshalResponse(e).0;
      && (resp.errorCode.Some? <==> e.handlerErrorCode == "")
      && (resp.errorCode.Some? ==> resp.errorCode.value == CfnError("", e.message, None))
  {
  }

  /** The resource model is carried over exactly: present with the same value, or absent. */
  lemma ResponseCarriesModel<M>(e: ProgressEvent<M>)
    ensures MarshalResponse(e).0.resourceModel == e.resourceModel
  {
  }

  /** A failed event built from an error with a code reports Failed and its message, but loses the code. */
  lemma FailedEventResponse<M>(err: CfnError)
    ensures var resp := MarshalResponse<M>(NewFailedEvent(err)).0;
      && resp.operationStatus == Failed
      && resp.message == err.message
      && resp.resourceModel == None
      && (err.code != "" ==> resp.errorCode == None)
      && (err.code == "" ==> resp.errorCode == Some(CfnError("", err.message, None)))
  {
  }

  /** The response ignores the callback context and delay, and the callback ignores everything but the delay. */
  lemma MarshalIgnoresCallbackState<M>(e: ProgressEvent<M>, c: CallbackContext, d: Int64)
    ensures MarshalResponse(e.(callbackContext := c, callbackDelaySeconds := d)) == MarshalResponse(e)
    ensures MarshalCallback(e.(callbackContext := c)) == MarshalCallback(e)
  {
  }

  /** A fresh event marshals to an Unknown response with an empty error code and a callback asking for no delay. */
  lemma NewEventMarshals<M>()
    ensures var resp := MarshalResponse<M>(NewEvent()).0;
      && resp.operationStatus == Unknown
      && resp.message == ""
      && resp.errorCode == Some(CfnError("", "", None))
      && resp.resourceModel == None
    ensures MarshalCallback<M>(NewEvent()) == (map[], 0)
  {
  }
}
