/** The parts of Express's request, response and `next` callback that the handlers touch.
    A response records every body handed to `json()`, so "exactly one response" is a
    statement about how much that record grew. */
module Express {
  import opened Js

  /** One call of `res.json(body)`, with the status code in force at that moment. */
  datatype Reply = Reply(status: int, body: Value)

  class Request {
    /** `req.headers.authorization`: the header's text, `None` when it is absent. */
    const authorization: Option<string>
    /** `req.clientInfo`: request metadata, opaque here; `Undefined` when nothing attached it. */
    const clientInfo: Value
    /** `req.user`: the identity the auth guard attaches; `Undefined` until then. */
    var user: Value

    constructor (authorization: Option<string>, clientInfo: Value, user: Value)
      ensures this.authorization == authorization && this.clientInfo == clientInfo
      ensures this.user == user
    {
      this.authorization := authorization;
      this.clientInfo := clientInfo;
      this.user := user;
    }
  }

  class Response {
    /** The code `res.status()` last set; Express starts every response at 200. */
    var statusCode: int
    /** Every body sent with `res.json()`, oldest first. */
    var sent: seq<Reply>

    constructor ()
      ensures statusCode == 200 && sent == []
    {
      statusCode := 200;
      sent := [];
    }

    /** `res.status(code)`: sets the code; sends nothing. */
    method Status(code: int)
      modifies this
      ensures statusCode == code && sent == old(sent)
    {
      statusCode := code;
    }

    /** `res.json(body)`: sends `body` with the current status code. */
    method Json(body: Value)
      modifies this
      ensures statusCode == old(statusCode)
      ensures sent == old(sent) + [Reply(statusCode, body)]
    {
      sent := sent + [Reply(statusCode, body)];
    }
  }

  /** The `next` callback handed to a middleware; it records how often it was called. */
  class Next {
    var calls: nat

    constructor ()
      ensures calls == 0
    {
      calls := 0;
    }

    method Call()
      modifies this
      ensures calls == old(calls) + 1
    {
      calls := calls + 1;
    }
  }
}
