/** `deleteUserAccount`: deletes a user through the provider, or does nothing when the
    integration is switched off. */
module UserService {
  import opened Js
  import opened Supabase

  /** `deleteUserAccount(userId)`, with the configuration flag `useSupabase` and the
      client handle `supabase` (null when the integration is off) passed in. */
  method DeleteUserAccount(useSupabase: bool, supabase: Client?, userId: string) returns (c: Completion)
    modifies supabase
    // disabled, or no handle: a no-op that returns normally
    ensures !useSupabase || supabase == null ==> c == Normal
    ensures !useSupabase && supabase != null ==> supabase.calls == old(supabase.calls)
    // enabled: exactly one deletion, for this id, whose reply decides the outcome
    ensures useSupabase && supabase != null ==>
      && supabase.calls == old(supabase.calls) + [Str(userId)]
      && c == Settle(supabase.answer(old(supabase.calls), Str(userId)))
  {
    if !useSupabase || supabase == null {
      return Normal;
    }
    var reply := supabase.DeleteUser(Str(userId));
    if reply.Rejected? {
      c := Threw(reply.thrown);
    } else if reply.error.Some? {
      c := Threw(Raise(reply.error.value));
    } else {
      c := Normal;
    }
  }

  /** With the integration on, the provider's error is what the service throws, the same
      value; without one it returns normally. */
  lemma SettleCases(reply: DeleteReply)
    ensures Settle(reply) == Normal <==> reply == Resolved(None)
    ensures reply.Resolved? && reply.error.Some? ==> Settle(reply) == Threw(Raise(reply.error.value))
    ensures reply.Rejected? ==> Settle(reply) == Threw(reply.thrown)
  {
  }
}
