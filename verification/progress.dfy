/**
 The progress events the handler framework threads through a chain of steps,
 and the remote-call abstraction every step goes through.
 */
module Progress {
  import opened Resource
  import opened Requests

  /** The handler error codes a failed event reports. */
  datatype ErrorCode =
    | InvalidRequest
    | NotFound
    | Throttling
    | ServiceInternalError
    | InternalFailure
    | GeneralServiceException

  /** What the service answers to one call: it succeeds, or it fails with a classified error. */
  datatype Reply = Ok | Fault(code: ErrorCode)

  /** A progress event: still in progress with a model, finished with a model, or failed. */
  datatype Event = InProgress(model: ResourceModel) | Succeeded(model: ResourceModel) | Failed(code: ErrorCode)

  /** An event together with the remote calls issued, in order, to reach it. */
  datatype Step = Step(issued: seq<Call>, event: Event)

  /**
   `ProgressEvent.then`: the next step runs only while the event is still in
   progress; a finished or failed event passes through untouched.
   */
  function Then(s: Step, next: Event -> Step): (r: Step)
    ensures !s.event.InProgress? ==> r == s
    ensures s.event.InProgress? ==> r.event == next(s.event).event
    ensures s.event.InProgress? ==> r.issued == s.issued + next(s.event).issued
  {
    if s.event.InProgress? then
      var t := next(s.event);
      Step(s.issued + t.issued, t.event)
    else
      s
  }

  /**
   One service call made through the proxy: the call is issued exactly once;
   on success the event carries the model the call was initiated with, on
   failure it carries the service's error code.
   */
  function Invoke(respond: Call -> Reply, call: Call, model: ResourceModel): (s: Step)
    ensures s.issued == [call]
    ensures s.event.InProgress? <==> respond(call).Ok?
    ensures respond(call).Fault? ==> s.event == Failed(respond(call).code)
    ensures s.event.InProgress? ==> s.event.model == model
  {
    match respond(call)
    case Ok => Step([call], InProgress(model))
    case Fault(code) => Step([call], Failed(code))
  }
}
