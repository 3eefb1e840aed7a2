/** The uniform response envelope (`ResponseData`) and the three helpers that send it. */
module HttpUtils {
  import opened Js
  import opened Express

  /** The `ResponseData` envelope. An optional field that is not set holds `Undefined`,
      which `JSON.stringify` leaves out of the body. */
  datatype ResponseData = ResponseData(
    success: bool,
    data: Value,
    error: Value,
    timestamp: string,
    clientInfo: Value)

  /** What a client takes as the payload of an envelope: `data` on success, else `error`. */
  function PayloadOf(r: ResponseData): Value
  {
    if r.success then r.data else r.error
  }

  /** The envelope `sendResponse` builds for `status`, payload `data`, the send time and
      the client metadata. */
  function BuildResponseData(status: int, data: Value, timestamp: string, clientInfo: Value): (r: ResponseData)
    ensures r.success <==> status < 400
    ensures PayloadOf(r) == data
    ensures r.success ==> r.error == Undefined
    ensures !r.success ==> r.data == Undefined
    ensures data != Undefined ==> (r.data != Undefined <==> r.error == Undefined)
    ensures r.timestamp == timestamp && r.clientInfo == clientInfo
  {
    ResponseData(
      success := status < 400,
      data := if status < 400 then data else Undefined,
      error := if status >= 400 then data else Undefined,
      timestamp := timestamp,
      clientInfo := clientInfo)
  }

  /** The object handed to `res.json()`. */
  function AsJson(r: ResponseData): Value
  {
    Obj(map[
      "success" := Bool(r.success),
      "data" := r.data,
      "error" := r.error,
      "timestamp" := Str(r.timestamp),
      "clientInfo" := r.clientInfo])
  }

  /** A client's reading of a body as an envelope: `None` unless `success` is a boolean
      and `timestamp` a string. No server code reads envelopes; this reader exists only to
      state, in `ParseAsJson`, that `AsJson` keeps every field. */
  function ParseResponseData(v: Value): Option<ResponseData>
  {
    var success, timestamp := Member(v, "success"), Member(v, "timestamp");
    if success.Bool? && timestamp.Str? then
      Some(ResponseData(success.b, Member(v, "data"), Member(v, "error"), timestamp.s, Member(v, "clientInfo")))
    else
      None
  }

  /** Reading back a sent envelope recovers it exactly. */
  lemma ParseAsJson(r: ResponseData)
    ensures ParseResponseData(AsJson(r)) == Some(r)
  {
  }

  /** The reply `sendResponse` sends: the status and the envelope of the payload. */
  function EnvelopeReply(status: int, data: Value, timestamp: string, clientInfo: Value): Reply
  {
    Reply(status, AsJson(BuildResponseData(status, data, timestamp, clientInfo)))
  }

  /** `sendResponse(res, status, data, clientInfo)`: one reply with the given status,
      carrying the envelope of `data`. */
  method SendResponse(res: Response, status: int, data: Value, clientInfo: Value, timestamp: string)
    modifies res
    ensures res.statusCode == status
    ensures res.sent == old(res.sent) + [EnvelopeReply(status, data, timestamp, clientInfo)]
  {
    var responseData := BuildResponseData(status, data, timestamp, clientInfo);
    res.Status(status);
    res.Json(AsJson(responseData));
  }

  /** `sendSuccessResponse`: always status 200, so the payload lands in `data`. */
  method SendSuccessResponse(res: Response, data: Value, clientInfo: Value, timestamp: string)
    modifies res
    ensures res.statusCode == 200
    ensures res.sent == old(res.sent) + [Reply(200, AsJson(ResponseData(true, data, Undefined, timestamp, clientInfo)))]
  {
    SendResponse(res, 200, data, clientInfo, timestamp);
  }

  /** `sendErrorResponse`: forwards the status and the message untouched; nothing checks
      that the status is an error status. */
  method SendErrorResponse(res: Response, status: int, error: string, clientInfo: Value, timestamp: string)
    modifies res
    ensures res.statusCode == status
    ensures res.sent == old(res.sent) + [EnvelopeReply(status, Str(error), timestamp, clientInfo)]
  {
    SendResponse(res, status, Str(error), clientInfo, timestamp);
  }

  /** An "error" response sent with a status below 400 is a success envelope with the
      message in `data`. */
  lemma ErrorResponseBelow400(status: int, message: string, timestamp: string, clientInfo: Value)
    requires status < 400
    ensures BuildResponseData(status, Str(message), timestamp, clientInfo)
         == ResponseData(true, Str(message), Undefined, timestamp, clientInfo)
  {
  }
}
