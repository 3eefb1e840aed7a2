/** `UserController.deleteAccount`: the handler behind `PUT /api/user/delete-account`.
    It calls the provider through the global handle itself rather than through the
    service, so a disabled integration (a null handle) ends in a 500. */
module UserController {
  import opened Js
  import opened Express
  import opened HttpUtils
  import opened Supabase

  const NotAuthenticated := "User not authenticated"
  const DeleteFailed := "Failed to delete account"

  function DeletedPayload(): Value
  {
    Obj(map["message" := Str("Account successfully deleted"), "forceLogout" := Bool(true)])
  }

  /** The status and payload sent once the deletion step has ended as `c`: the success
      payload, or a 500 with the thrown error's message and a fixed fallback. */
  function Answer(c: Completion): (r: (int, Value))
    ensures r.0 == 200 || r.0 == 500
    ensures r.0 == 200 <==> c == Normal
    ensures c == Normal ==> r.1 == DeletedPayload()
    ensures c.Threw? ==> r.1 == Str(MessageOr(c.thrown, DeleteFailed))
  {
    match c
    case Normal => (200, DeletedPayload())
    case Threw(t) => (500, Str(MessageOr(t, DeleteFailed)))
  }

  /** `deleteAccount(req, res)` with `supabase` the global client handle and `now` the
      send time. */
  method DeleteAccount(req: Request, res: Response, supabase: Client?, now: string)
    modifies res, supabase
    // no authenticated subject: 401, and the provider is not asked
    ensures !Truthy(Member(req.user, "sub")) ==>
      && res.sent == old(res.sent) + [EnvelopeReply(401, Str(NotAuthenticated), now, req.clientInfo)]
      && (supabase != null ==> supabase.calls == old(supabase.calls))
    // a null handle: reading `.auth` throws, and the catch answers 500
    ensures Truthy(Member(req.user, "sub")) && supabase == null ==>
      res.sent == old(res.sent) + [EnvelopeReply(500, Str(NullHandleMessage), now, req.clientInfo)]
    // one deletion for the subject; its reply decides between 200 and 500
    ensures var userId := Member(req.user, "sub");
      Truthy(userId) && supabase != null ==>
      && supabase.calls == old(supabase.calls) + [userId]
      && var answer := Answer(Settle(supabase.answer(old(supabase.calls), userId)));
         res.sent == old(res.sent) + [EnvelopeReply(answer.0, answer.1, now, req.clientInfo)]
    ensures |res.sent| == |old(res.sent)| + 1 && res.sent[..|old(res.sent)|] == old(res.sent)
    ensures res.statusCode == res.sent[|res.sent| - 1].status
  {
    // try
    var userId := Member(req.user, "sub");
    if !Truthy(userId) {
      SendErrorResponse(res, 401, NotAuthenticated, req.clientInfo, now);
      return;
    }
    var outcome: Completion;
    if supabase == null {
      outcome := Threw(Raise(NullHandleError()));
    } else {
      var reply := supabase.DeleteUser(userId);
      if reply.Rejected? {
        outcome := Threw(reply.thrown);
      } else if reply.error.Some? {
        outcome := Threw(Raise(reply.error.value));
      } else {
        outcome := Normal;
      }
    }
    if outcome.Normal? {
      SendSuccessResponse(res, DeletedPayload(), req.clientInfo, now);
    } else {
      // catch
      SendErrorResponse(res, 500, MessageOr(outcome.thrown, DeleteFailed), req.clientInfo, now);
    }
  }
}
