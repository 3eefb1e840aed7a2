/** The one call into the identity provider's client library that the backend makes,
    `supabase.auth.admin.deleteUser(id)`, behind an injected answer. */
module Supabase {
  import opened Js

  /** What awaiting `deleteUser(id)` gives: the promise resolves to `{ error }`, with
      `error` an `AuthError` (a subclass of `Error`) or `null`, or it rejects. */
  datatype DeleteReply = Resolved(error: Option<ErrorObject>) | Rejected(thrown: Thrown)

  /** How the code that awaits a deletion and rethrows its `error` ends. */
  datatype Completion = Normal | Threw(thrown: Thrown)

  /** `const { error } = await deleteUser(id); if (error) throw error;`: a rejection
      propagates, a reported error is thrown as it is, otherwise execution goes on. */
  function Settle(reply: DeleteReply): Completion
  {
    match reply
    case Rejected(t) => Threw(t)
    case Resolved(None) => Normal
    case Resolved(Some(e)) => Threw(Raise(e))
  }

  /** The message of the `TypeError` thrown by `supabase.auth` while `supabase` is `null`,
      in the wording of the V8 engine. */
  const NullHandleMessage := "Cannot read properties of null (reading 'auth')"

  function NullHandleError(): ErrorObject
  {
    ErrorObject("TypeError", NullHandleMessage)
  }

  /** A client handle. The remote side's answer is provider-defined: it may depend on the
      deletions asked for before, so repeating a deletion is whatever the provider does. */
  class Client {
    /** The ids passed to `auth.admin.deleteUser`, oldest first. */
    var calls: seq<Value>
    const answer: (seq<Value>, Value) -> DeleteReply

    constructor (answer: (seq<Value>, Value) -> DeleteReply)
      ensures calls == [] && this.answer == answer
    {
      calls := [];
      this.answer := answer;
    }

    method DeleteUser(userId: Value) returns (reply: DeleteReply)
      modifies this
      ensures calls == old(calls) + [userId]
      ensures reply == answer(old(calls), userId)
    {
      reply := answer(calls, userId);
      calls := calls + [userId];
    }
  }
}
